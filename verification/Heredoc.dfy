/** Three scanners for the end of here-documents: the tracker that takes one line at a time, the rescan of
    the whole buffer, and the parser's collector. */
module Heredoc {
  import opened Common

  datatype Delimiter = Delimiter(word: string, stripTabs: bool)

  /** The end of the line that begins a text. */
  function LineLength(s: string): (n: nat)
    ensures n <= |s| && (n < |s| ==> s[n] == '\n')
    ensures forall k :: 0 <= k < n ==> s[k] != '\n'
  {
    if s == "" || s[0] == '\n' then 0 else 1 + LineLength(s[1..])
  }

  function WithoutTabs(s: string): (r: string)
    ensures |r| <= |s|
  {
    if s != "" && s[0] == '\t' then WithoutTabs(s[1..]) else s
  }

  predicate Matches(d: Delimiter, line: string) {
    (if d.stripTabs then WithoutTabs(line) else line) == d.word
  }

  // ---------- the tracker ----------

  /** How many delimiters have been seen after one more line. */
  function AfterLine(ds: seq<Delimiter>, k: nat, line: string): nat {
    if k < |ds| && Matches(ds[k], line) then k + 1 else k
  }

  /** The same after all lines of a text, the unfinished one included. */
  function AfterText(ds: seq<Delimiter>, k: nat, s: string): nat
    decreases |s|
  {
    if k >= |ds| then k
    else
      var n := LineLength(s);
      var next := AfterLine(ds, k, s[..n]);
      if n == |s| then next else AfterText(ds, next, s[n + 1..])
  }

  /** The same after lines that are given one by one. */
  function AfterLines(ds: seq<Delimiter>, k: nat, lines: seq<string>): nat
    decreases |lines|
  {
    if lines == [] then k else AfterLines(ds, AfterLine(ds, k, lines[0]), lines[1..])
  }

  function Joined(lines: seq<string>): string {
    if lines == [] then "" else lines[0] + ("\n" + Joined(lines[1..]))
  }

  /** Whether some line is the delimiter's: no line holds a newline, nor a tab in front once those are stripped. */
  predicate CanMatch(d: Delimiter) {
    '\n' !in d.word && (d.stripTabs && d.word != "" ==> d.word[0] != '\t')
  }

  /** The last delimiter, if there is any, is not empty. */
  predicate EndsInWord(ds: seq<Delimiter>) {
    ds == [] || ds[|ds| - 1].word != ""
  }

  lemma {:induction false} LineLengthIs(line: string, rest: string)
    requires '\n' !in line
    ensures LineLength(line + ("\n" + rest)) == |line|
  {
    var s := line + ("\n" + rest);
    if line != "" {
      assert s[0] == line[0];
      assert s[1..] == line[1..] + ("\n" + rest);
      LineLengthIs(line[1..], rest);
    }
  }

  /** Lines that arrive one by one bring the tracker to where scanning all of them at once does, up to the
      empty line that the scan sees behind the last newline. */
  lemma {:induction false} LinesAreText(ds: seq<Delimiter>, k: nat, lines: seq<string>)
    requires k <= |ds| && forall j :: 0 <= j < |lines| ==> '\n' !in lines[j]
    ensures AfterText(ds, k, Joined(lines)) == AfterLine(ds, AfterLines(ds, k, lines), "")
    decreases |lines|
  {
    hide Matches;
    if k == |ds| {
      DoneStays(ds, k, lines);
    } else if lines == [] {
      assert ""[..0] == "";
    } else {
      var s := Joined(lines);
      LineLengthIs(lines[0], Joined(lines[1..]));
      assert s[..|lines[0]|] == lines[0] && s[|lines[0]| + 1..] == Joined(lines[1..]);
      LinesAreText(ds, AfterLine(ds, k, lines[0]), lines[1..]);
    }
  }

  lemma {:induction false} DoneStays(ds: seq<Delimiter>, k: nat, lines: seq<string>)
    requires k >= |ds|
    ensures AfterLines(ds, k, lines) == k
    decreases |lines|
  {
    if lines != [] {
      DoneStays(ds, k, lines[1..]);
    }
  }

  // ---------- the rescan ----------

  /** What follows the line that ends the first here-document of a text, if there is one. */
  function AfterDelimiter(d: Delimiter, s: string): (r: Option<string>)
    ensures r.Some? ==> |r.value| <= |s|
    decreases |s|
  {
    var n := LineLength(s);
    if Matches(d, s[..n]) then Some(if n < |s| then s[n + 1..] else "")
    else if n == |s| then None
    else AfterDelimiter(d, s[n + 1..])
  }

  predicate AllFound(ds: seq<Delimiter>, k: nat, s: string)
    decreases |ds| - k
  {
    if k >= |ds| then true
    else
      var rest := AfterDelimiter(ds[k], s);
      rest.Some? && AllFound(ds, k + 1, rest.value)
  }

  lemma {:induction false} RescanIsTracker(ds: seq<Delimiter>, k: nat, s: string)
    requires EndsInWord(ds) && k <= |ds|
    ensures AllFound(ds, k, s) <==> AfterText(ds, k, s) == |ds|
    decreases |ds| - k, |s|
  {
    hide Matches;
    if k < |ds| {
      var n := LineLength(s);
      if Matches(ds[k], s[..n]) {
        if n < |s| {
          RescanIsTracker(ds, k + 1, s[n + 1..]);
        } else {
          NothingLeft(ds, k + 1);
        }
      } else if n < |s| {
        RescanIsTracker(ds, k, s[n + 1..]);
      }
    }
  }

  lemma {:induction false} NothingLeft(ds: seq<Delimiter>, k: nat)
    requires EndsInWord(ds) && k <= |ds|
    ensures AllFound(ds, k, "") <==> k == |ds|
    decreases |ds| - k
  {
    if k < |ds| {
      assert ""[..0] == "";
      NothingLeft(ds, k + 1);
    }
  }

  // ---------- the collector ----------

  /** The body of the first here-document of a text, and what follows it. */
  function CollectOne(d: Delimiter, s: string): (r: Option<(string, string)>)
    ensures r.Some? ==> |r.value.1| <= |s|
    decreases |s|
  {
    if s == "" then None
    else
      var n := LineLength(s);
      if Matches(d, s[..n]) then Some(("", if n < |s| then s[n + 1..] else ""))
      else if n == |s| then None
      else
        var more := CollectOne(d, s[n + 1..]);
        if more.None? then None
        else
          var line := if d.stripTabs then WithoutTabs(s[..n]) else s[..n];
          Some((line + ("\n" + more.value.0), more.value.1))
  }

  /** All bodies, and what follows them. */
  function Collect(ds: seq<Delimiter>, s: string): Option<(seq<string>, string)> {
    if ds == [] then Some(([], s))
    else
      var one := CollectOne(ds[0], s);
      if one.None? then None
      else
        var rest := Collect(ds[1..], one.value.1);
        if rest.None? then None else Some(([one.value.0] + rest.value.0, rest.value.1))
  }

  lemma FindTurn(d: Delimiter, s: string)
    ensures (var n := LineLength(s);
             AfterDelimiter(d, s) ==
             if Matches(d, s[..n]) then Some(if n < |s| then s[n + 1..] else "")
             else if n == |s| then None
             else AfterDelimiter(d, s[n + 1..]))
  {
  }

  /** The collector misses nothing but an empty line behind the text. */
  lemma {:induction false} CollectOneFinds(d: Delimiter, s: string)
    ensures CollectOne(d, s).Some? ==> AfterDelimiter(d, s) == Some(CollectOne(d, s).value.1)
    ensures CollectOne(d, s).None? ==> AfterDelimiter(d, s) in {None, Some("")}
    ensures CollectOne(d, s).None? && d.word != "" ==> AfterDelimiter(d, s) == None
    decreases |s|
  {
    hide AfterDelimiter, LineLength, WithoutTabs;
    FindTurn(d, s);
    if s == "" {
      assert s[..0] == "";
    } else {
      var n := LineLength(s);
      if n < |s| {
        CollectOneFinds(d, s[n + 1..]);
      }
    }
  }

  lemma {:induction false} CollectorIsRescan(ds: seq<Delimiter>, k: nat, s: string)
    requires EndsInWord(ds) && k <= |ds|
    ensures Collect(ds[k..], s).Some? <==> AllFound(ds, k, s)
    decreases |ds| - k
  {
    hide AfterDelimiter, CollectOne;
    if k < |ds| {
      assert ds[k..][0] == ds[k] && ds[k..][1..] == ds[k + 1..];
      CollectOneFinds(ds[k], s);
      if CollectOne(ds[k], s).Some? {
        CollectorIsRescan(ds, k + 1, CollectOne(ds[k], s).value.1);
      } else {
        NothingLeft(ds, k + 1);
      }
    }
  }

  // ---------- when the three agree ----------

  /** The tracker, given a text at once or line by line, has seen everything exactly when the rescan is
      complete and exactly when the collector succeeds. */
  ghost predicate Agree(ds: seq<Delimiter>, s: string) {
    && (AllFound(ds, 0, s) <==> AfterText(ds, 0, s) == |ds|)
    && (Collect(ds, s).Some? <==> AllFound(ds, 0, s))
    && forall lines: seq<string> :: (forall j :: 0 <= j < |lines| ==> '\n' !in lines[j]) && s == Joined(lines) ==>
         (AfterLines(ds, 0, lines) == |ds| <==> AfterText(ds, 0, s) == |ds|)
  }

  lemma AgreeWhere(ds: seq<Delimiter>, s: string)
    requires EndsInWord(ds)
    ensures Agree(ds, s)
  {
    hide AllFound, AfterText, AfterLines, Collect, Joined;
    RescanIsTracker(ds, 0, s);
    assert ds[0..] == ds;
    CollectorIsRescan(ds, 0, s);
    forall lines: seq<string> | (forall j :: 0 <= j < |lines| ==> '\n' !in lines[j]) && s == Joined(lines)
      ensures AfterLines(ds, 0, lines) == |ds| <==> AfterText(ds, 0, s) == |ds|
    {
      LinesAreText(ds, 0, lines);
    }
  }

  lemma {:induction false} StrippedHasNoTab(s: string)
    ensures WithoutTabs(s) != "" ==> WithoutTabs(s)[0] != '\t'
    ensures '\n' !in s ==> '\n' !in WithoutTabs(s)
  {
    if s != "" {
      StrippedHasNoTab(s[1..]);
    }
  }

  lemma NoLineMatches(d: Delimiter, line: string)
    requires !CanMatch(d) && '\n' !in line
    ensures !Matches(d, line)
  {
    hide WithoutTabs;
    StrippedHasNoTab(line);
  }

  lemma {:induction false} NeverFound(d: Delimiter, s: string)
    requires !CanMatch(d)
    ensures AfterDelimiter(d, s) == None && CollectOne(d, s) == None
    decreases |s|
  {
    hide CanMatch, Matches;
    var n := LineLength(s);
    NoLineMatches(d, s[..n]);
    if n < |s| {
      NeverFound(d, s[n + 1..]);
    }
  }

  /** Nobody gets past a delimiter that no line can match. */
  lemma {:induction false} NeverPast(ds: seq<Delimiter>, k: nat, s: string, stuck: nat)
    requires k <= stuck < |ds| && !CanMatch(ds[stuck])
    ensures !AllFound(ds, k, s) && Collect(ds[k..], s) == None
    decreases |ds| - k
  {
    hide CanMatch, AfterDelimiter, CollectOne;
    assert ds[k..][0] == ds[k] && ds[k..][1..] == ds[k + 1..];
    if k == stuck {
      NeverFound(ds[k], s);
    } else {
      if AfterDelimiter(ds[k], s).Some? {
        NeverPast(ds, k + 1, AfterDelimiter(ds[k], s).value, stuck);
      }
      if CollectOne(ds[k], s).Some? {
        NeverPast(ds, k + 1, CollectOne(ds[k], s).value.1, stuck);
      }
    }
  }

  lemma {:induction false} TextNeverPast(ds: seq<Delimiter>, k: nat, s: string, stuck: nat)
    requires k <= stuck < |ds| && !CanMatch(ds[stuck])
    ensures AfterText(ds, k, s) <= stuck
    decreases |s|
  {
    hide CanMatch, Matches;
    var n := LineLength(s);
    if k == stuck {
      NoLineMatches(ds[k], s[..n]);
    }
    if n < |s| {
      TextNeverPast(ds, AfterLine(ds, k, s[..n]), s[n + 1..], stuck);
    }
  }

  lemma {:induction false} LinesNeverPast(ds: seq<Delimiter>, k: nat, lines: seq<string>, stuck: nat)
    requires k <= stuck < |ds| && !CanMatch(ds[stuck]) && forall j :: 0 <= j < |lines| ==> '\n' !in lines[j]
    ensures AfterLines(ds, k, lines) <= stuck
    decreases |lines|
  {
    hide CanMatch, Matches;
    if lines != [] {
      if k == stuck {
        NoLineMatches(ds[k], lines[0]);
      }
      LinesNeverPast(ds, AfterLine(ds, k, lines[0]), lines[1..], stuck);
    }
  }

  lemma AgreeOnNothing(ds: seq<Delimiter>, s: string, stuck: nat)
    requires stuck < |ds| && !CanMatch(ds[stuck])
    ensures Agree(ds, s)
  {
    hide AllFound, AfterText, AfterLines, Collect, Joined, CanMatch;
    assert ds[0..] == ds;
    NeverPast(ds, 0, s, stuck);
    TextNeverPast(ds, 0, s, stuck);
    forall lines: seq<string> | (forall j :: 0 <= j < |lines| ==> '\n' !in lines[j]) && s == Joined(lines)
      ensures AfterLines(ds, 0, lines) != |ds|
    {
      LinesNeverPast(ds, 0, lines, stuck);
    }
  }

  /** Every delimiter but the last on a line of its own. */
  function AllButLast(ds: seq<Delimiter>, k: nat): string
    requires k < |ds|
    decreases |ds| - k
  {
    if k == |ds| - 1 then "" else ds[k].word + ("\n" + AllButLast(ds, k + 1))
  }

  lemma {:induction false} StrippedIs(s: string)
    requires s != "" ==> s[0] != '\t'
    ensures WithoutTabs(s) == s
  {
  }

  /** On that text the rescan sees an empty line at the end, and the collector the end of its input. */
  lemma {:induction false} EmptyLastDiffers(ds: seq<Delimiter>, k: nat)
    requires k < |ds| && ds[|ds| - 1].word == "" && forall j :: 0 <= j < |ds| ==> CanMatch(ds[j])
    ensures AllFound(ds, k, AllButLast(ds, k)) && Collect(ds[k..], AllButLast(ds, k)) == None
    decreases |ds| - k
  {
    hide AfterDelimiter, CollectOne, LineLength;
    var s, d := AllButLast(ds, k), ds[k];
    assert ds[k..][0] == d && ds[k..][1..] == ds[k + 1..];
    FindTurn(d, s);
    if d.stripTabs {
      StrippedIs(d.word);
    }
    if k == |ds| - 1 {
      assert s[..0] == "";
      NothingCollected(d);
    } else {
      var rest := AllButLast(ds, k + 1);
      LineLengthIs(d.word, rest);
      assert s[..|d.word|] == d.word && s[|d.word| + 1..] == rest;
      CollectTurn(d, s, "");
      CollectedNothing(d, s);
      EmptyLastDiffers(ds, k + 1);
    }
  }

  lemma NothingCollected(d: Delimiter)
    ensures CollectOne(d, "") == None
  {
  }

  /** The three agree on every text if and only if there is no delimiter, or the last one is not empty, or
      some delimiter is one that no line can match. */
  lemma ScannersAgree(ds: seq<Delimiter>)
    ensures (forall s :: Agree(ds, s)) <==> EndsInWord(ds) || exists k :: 0 <= k < |ds| && !CanMatch(ds[k])
  {
    hide Agree, CanMatch;
    if EndsInWord(ds) {
      forall s ensures Agree(ds, s) {
        AgreeWhere(ds, s);
      }
    } else if k :| 0 <= k < |ds| && !CanMatch(ds[k]) {
      forall s ensures Agree(ds, s) {
        AgreeOnNothing(ds, s, k);
      }
    } else {
      EmptyLastDiffers(ds, 0);
      assert ds[0..] == ds;
      NotAgreed(ds, AllButLast(ds, 0));
    }
  }

  lemma NotAgreed(ds: seq<Delimiter>, s: string)
    requires AllFound(ds, 0, s) && Collect(ds, s).None?
    ensures !Agree(ds, s)
  {
  }

  // ---------- the scanners as they run ----------

  lemma Suffix(s: string, i: nat, k: nat)
    requires i + k <= |s|
    ensures s[i..][k..] == s[i + k..] && s[i..][..k] == s[i..i + k]
  {
  }

  method LineEndAt(s: string, start: nat) returns (end: nat)
    requires start <= |s|
    ensures end == start + LineLength(s[start..]) <= |s|
  {
    end := start;
    while end < |s| && s[end] != '\n'
      invariant start <= end <= |s|
      invariant LineLength(s[start..]) == end - start + LineLength(s[end..])
    {
      Suffix(s, end, 1);
      end := end + 1;
    }
  }

  method TabsEnd(s: string, start: nat, end: nat) returns (i: nat)
    requires start <= end <= |s|
    ensures start <= i <= end && s[i..end] == WithoutTabs(s[start..end])
  {
    i := start;
    while i < end && s[i] == '\t'
      invariant start <= i <= end
      invariant WithoutTabs(s[i..end]) == WithoutTabs(s[start..end])
    {
      assert s[i..end][1..] == s[i + 1..end];
      i := i + 1;
    }
  }

  method LineMatches(d: Delimiter, s: string, start: nat, end: nat) returns (b: bool)
    requires start <= end <= |s|
    ensures b <==> Matches(d, s[start..end])
  {
    var from := start;
    if d.stripTabs {
      from := TabsEnd(s, start, end);
    }
    b := end - from == |d.word| && s[from..end] == d.word;
  }

  /** The incremental state: how many delimiters have been seen, and whether any is still awaited. */
  class Tracker {
    const delimiters: seq<Delimiter>
    var index: nat
    var active: bool

    ghost predicate Valid()
      reads this
    {
      index <= |delimiters| && (active <==> index < |delimiters|)
    }

    constructor (delimiters: seq<Delimiter>)
      requires delimiters != []
      ensures Valid() && this.delimiters == delimiters && index == 0
    {
      this.delimiters, index, active := delimiters, 0, true;
    }

    method ConsumeLine(line: string)
      requires Valid()
      modifies this
      ensures Valid() && index == AfterLine(delimiters, old(index), line)
    {
      if !active {
        return;
      }
      assert line[0..|line|] == line;
      var found := LineMatches(delimiters[index], line, 0, |line|);
      if found {
        index := index + 1;
        if index >= |delimiters| {
          active := false;
        }
      }
    }

    /** Takes the lines of a buffer from `start` on. */
    method ConsumeExistingBody(buf: string, start: nat)
      requires Valid() && start <= |buf|
      modifies this
      ensures Valid() && index == AfterText(delimiters, old(index), buf[start..])
    {
      hide LineLength, AfterLine;
      var pos := start;
      while pos <= |buf| && active
        invariant Valid() && start <= pos <= |buf|
        invariant AfterText(delimiters, index, buf[pos..]) == AfterText(delimiters, old(index), buf[start..])
        decreases |buf| - pos, active
      {
        var end := LineEndAt(buf, pos);
        Suffix(buf, pos, end - pos);
        ghost var before := index;
        ConsumeLine(buf[pos..end]);
        if end >= |buf| {
          assert index == AfterText(delimiters, before, buf[pos..]);
          return;
        }
        Suffix(buf, pos, end - pos + 1);
        pos := end + 1;
      }
    }
  }

  method FindDelimiter(d: Delimiter, buf: string, start: nat) returns (found: bool, pos: nat)
    requires start <= |buf|
    ensures found <==> AfterDelimiter(d, buf[start..]).Some?
    ensures pos <= |buf| && (found ==> buf[pos..] == AfterDelimiter(d, buf[start..]).value)
  {
    hide LineLength, Matches, AfterDelimiter;
    pos := start;
    while true
      invariant start <= pos <= |buf|
      invariant AfterDelimiter(d, buf[pos..]) == AfterDelimiter(d, buf[start..])
      decreases |buf| - pos
    {
      FindTurn(d, buf[pos..]);
      var end := LineEndAt(buf, pos);
      Suffix(buf, pos, end - pos);
      var b := LineMatches(d, buf, pos, end);
      if end < |buf| {
        Suffix(buf, pos, end - pos + 1);
      }
      if b {
        return true, if end < |buf| then end + 1 else end;
      }
      if end >= |buf| {
        return false, end;
      }
      pos := end + 1;
    }
  }

  method HeredocNeedsMoreInput(ds: seq<Delimiter>, buf: string, start: nat) returns (more: bool)
    requires start <= |buf|
    ensures more <==> !AllFound(ds, 0, buf[start..])
  {
    hide AfterDelimiter;
    var pos := start;
    for i := 0 to |ds|
      invariant start <= pos <= |buf|
      invariant AllFound(ds, i, buf[pos..]) == AllFound(ds, 0, buf[start..])
    {
      var found, next := FindDelimiter(ds[i], buf, pos);
      if !found {
        return true;
      }
      pos := next;
    }
    return false;
  }

  method CollectBody(d: Delimiter, source: string, start: nat) returns (ok: bool, body: string, pos: nat)
    requires start <= |source|
    ensures ok <==> CollectOne(d, source[start..]).Some?
    ensures pos <= |source| && (ok ==> CollectOne(d, source[start..]).value == (body, source[pos..]))
  {
    hide LineLength, Matches, CollectOne;
    body := "";
    pos := start;
    CollectedNothing(d, source[start..]);
    while true
      invariant start <= pos <= |source|
      invariant CollectOne(d, source[start..]) == Behind(body, CollectOne(d, source[pos..]))
      decreases |source| - pos
    {
      CollectTurn(d, source[pos..], body);
      if pos == |source| {
        return false, "", pos;
      }
      var end := LineEndAt(source, pos);
      Suffix(source, pos, end - pos);
      var b := LineMatches(d, source, pos, end);
      if end < |source| {
        Suffix(source, pos, end - pos + 1);
      }
      if b {
        return true, body, if end < |source| then end + 1 else end;
      }
      if end >= |source| {
        return false, "", end;
      }
      var from := pos;
      if d.stripTabs {
        from := TabsEnd(source, pos, end);
      }
      body := body + (source[from..end] + "\n");
      pos := end + 1;
    }
  }

  function Behind(body: string, more: Option<(string, string)>): Option<(string, string)> {
    if more.None? then None else Some((body + more.value.0, more.value.1))
  }

  lemma CollectedNothing(d: Delimiter, s: string)
    ensures Behind("", CollectOne(d, s)) == CollectOne(d, s)
  {
    if CollectOne(d, s).Some? {
      assert "" + CollectOne(d, s).value.0 == CollectOne(d, s).value.0;
    }
  }

  /** What one line does to the result of a collection that has come as far as `body`. */
  lemma CollectTurn(d: Delimiter, s: string, body: string)
    ensures (var n := LineLength(s);
             var whole := Behind(body, CollectOne(d, s));
             if s == "" then whole == None
             else if Matches(d, s[..n]) then whole == Some((body, if n < |s| then s[n + 1..] else ""))
             else if n == |s| then whole == None
             else
               var line := if d.stripTabs then WithoutTabs(s[..n]) else s[..n];
               whole == Behind(body + (line + "\n"), CollectOne(d, s[n + 1..])))
  {
    hide LineLength, Matches, WithoutTabs;
    var n := LineLength(s);
    if s != "" {
      if Matches(d, s[..n]) {
        assert body + "" == body;
      } else if n < |s| && CollectOne(d, s[n + 1..]).Some? {
        var line := if d.stripTabs then WithoutTabs(s[..n]) else s[..n];
        var more := CollectOne(d, s[n + 1..]).value.0;
        assert body + (line + ("\n" + more)) == (body + (line + "\n")) + more;
      }
    }
  }

  /** Collects the bodies of all pending here-documents. */
  method ConsumePendingHeredocs(ds: seq<Delimiter>, source: string, start: nat)
    returns (ok: bool, bodies: seq<string>, pos: nat)
    requires start <= |source|
    ensures ok <==> Collect(ds, source[start..]).Some?
    ensures pos <= |source| && (ok ==> Collect(ds, source[start..]) == Some((bodies, source[pos..])))
  {
    hide CollectOne;
    bodies := [];
    pos := start;
    CollectedNone(Collect(ds, source[start..]));
    assert ds[0..] == ds;
    for i := 0 to |ds|
      invariant start <= pos <= |source|
      invariant Collect(ds, source[start..]) == AllBehind(bodies, Collect(ds[i..], source[pos..]))
    {
      assert ds[i..][0] == ds[i] && ds[i..][1..] == ds[i + 1..];
      var found, body, next := CollectBody(ds[i], source, pos);
      if !found {
        return false, [], pos;
      }
      OneMore(bodies, body, Collect(ds[i + 1..], source[next..]));
      bodies := bodies + [body];
      pos := next;
    }
    assert bodies + [] == bodies;
    ok := true;
  }

  function AllBehind(bodies: seq<string>, rest: Option<(seq<string>, string)>): Option<(seq<string>, string)> {
    if rest.None? then None else Some((bodies + rest.value.0, rest.value.1))
  }

  lemma CollectedNone(o: Option<(seq<string>, string)>)
    ensures AllBehind([], o) == o
  {
    if o.Some? {
      assert [] + o.value.0 == o.value.0;
    }
  }

  lemma OneMore(bodies: seq<string>, body: string, rest: Option<(seq<string>, string)>)
    ensures rest.Some? ==>
              AllBehind(bodies, Some(([body] + rest.value.0, rest.value.1))) == AllBehind(bodies + [body], rest)
  {
    if rest.Some? {
      assert bodies + ([body] + rest.value.0) == (bodies + [body]) + rest.value.0;
    }
  }

  // ---------- the collector keeps the text ----------

  /** The bodies with the lines that ended them. */
  function Rebuilt(ds: seq<Delimiter>, bodies: seq<string>): string
    requires |ds| == |bodies|
  {
    if ds == [] then "" else bodies[0] + (ds[0].word + ("\n" + Rebuilt(ds[1..], bodies[1..])))
  }

  lemma LineSplit(s: string)
    ensures (var n := LineLength(s);
             n < |s| ==> s == s[..n] + ("\n" + s[n + 1..]))
    ensures LineLength(s) == |s| ==> s[..LineLength(s)] == s
  {
    hide LineLength;
    var n := LineLength(s);
    if n < |s| {
      assert s[n..] == [s[n]] + s[n + 1..];
      assert s == s[..n] + s[n..];
    }
  }

  lemma Glue(line: string, body: string, word: string, rest: string)
    ensures (line + ("\n" + body)) + (word + ("\n" + rest)) == line + ("\n" + (body + (word + ("\n" + rest))))
    ensures (line + ("\n" + body)) + word == line + ("\n" + (body + word))
    ensures "" + (word + ("\n" + rest)) == word + ("\n" + rest) && "" + word == word
  {
  }

  lemma {:induction false} BodyKeeps(d: Delimiter, s: string)
    requires !d.stripTabs && CollectOne(d, s).Some?
    ensures (var (body, rest) := CollectOne(d, s).value;
             s == body + (d.word + ("\n" + rest)) || (s == body + d.word && rest == ""))
    decreases |s|
  {
    hide LineLength;
    var n := LineLength(s);
    LineSplit(s);
    if Matches(d, s[..n]) {
      Glue("", "", d.word, if n < |s| then s[n + 1..] else "");
    } else {
      BodyKeeps(d, s[n + 1..]);
      var (body, rest) := CollectOne(d, s[n + 1..]).value;
      Glue(s[..n], body, d.word, rest);
    }
  }

  /** Without tab stripping the bodies and their delimiter lines are the text that was consumed, up to a
      newline that is missing at its very end. */
  lemma {:induction false} CollectorKeepsText(ds: seq<Delimiter>, s: string)
    requires Collect(ds, s).Some? && forall k :: 0 <= k < |ds| ==> !ds[k].stripTabs
    ensures (var (bodies, rest) := Collect(ds, s).value;
             && |bodies| == |ds|
             && (s == Rebuilt(ds, bodies) + rest || (s + "\n" == Rebuilt(ds, bodies) && rest == "")))
    decreases |ds|
  {
    hide CollectOne;
    if ds == [] {
      assert "" + s == s;
    } else {
      BodyKeeps(ds[0], s);
      var (body, after) := CollectOne(ds[0], s).value;
      CollectorKeepsText(ds[1..], after);
      var (bodies, rest) := Collect(ds[1..], after).value;
      var tail := Rebuilt(ds[1..], bodies);
      assert ([body] + bodies)[1..] == bodies;
      var d := ds[0].word;
      assert (body + (d + ("\n" + tail))) + rest == body + (d + ("\n" + (tail + rest)));
      if after == "" && s == body + d {
        EmptyEndsAll(ds[1..]);
        assert (body + d) + "\n" == body + (d + ("\n" + ""));
      }
      assert (body + (d + ("\n" + after))) + "\n" == body + (d + ("\n" + (after + "\n")));
    }
  }

  lemma EmptyEndsAll(ds: seq<Delimiter>)
    requires Collect(ds, "").Some?
    ensures ds == []
  {
  }

  // ---------- what the bodies are ----------

  predicate Tabs(t: string) {
    forall k :: 0 <= k < |t| ==> t[k] == '\t'
  }

  /** A line without a newline, and without a tab in front. */
  predicate Bare(line: string) {
    '\n' !in line && (line != "" ==> line[0] != '\t')
  }

  lemma {:induction false} TabsGo(tabs: string, line: string)
    requires Tabs(tabs) && Bare(line)
    ensures WithoutTabs(tabs + line) == line
  {
    if tabs == "" {
      assert tabs + line == line;
    } else {
      assert (tabs + line)[1..] == tabs[1..] + line;
      TabsGo(tabs[1..], line);
    }
  }

  /** Each line with its tabs in front. */
  function Indented(tabs: seq<string>, lines: seq<string>): (r: seq<string>)
    requires |tabs| == |lines|
    ensures |r| == |lines| && forall k :: 0 <= k < |r| ==> r[k] == tabs[k] + lines[k]
  {
    if lines == [] then [] else [tabs[0] + lines[0]] + Indented(tabs[1..], lines[1..])
  }

  lemma CollectsLine(d: Delimiter, line: string, rest: string)
    requires '\n' !in line && !Matches(d, line)
    ensures (var more := CollectOne(d, rest);
             CollectOne(d, line + ("\n" + rest))
             == if more.None? then None
                else Some(((if d.stripTabs then WithoutTabs(line) else line) + ("\n" + more.value.0), more.value.1)))
  {
    hide Matches, WithoutTabs;
    var s := line + ("\n" + rest);
    LineLengthIs(line, rest);
    assert s[..|line|] == line && s[|line| + 1..] == rest;
  }

  lemma CollectsDelimiter(d: Delimiter, line: string, rest: string)
    requires '\n' !in line && Matches(d, line)
    ensures CollectOne(d, line + ("\n" + rest)) == Some(("", rest))
  {
    hide Matches, WithoutTabs;
    var s := line + ("\n" + rest);
    LineLengthIs(line, rest);
    assert s[..|line|] == line && s[|line| + 1..] == rest;
  }

  /** The body of `<<` is the lines up to the one that is the delimiter, as they are. */
  lemma {:induction false} BodyIsLines(word: string, lines: seq<string>, rest: string)
    requires '\n' !in word && forall k :: 0 <= k < |lines| ==> '\n' !in lines[k] && lines[k] != word
    ensures CollectOne(Delimiter(word, false), Joined(lines) + (word + ("\n" + rest))) == Some((Joined(lines), rest))
    decreases |lines|
  {
    hide CollectOne;
    var d, last := Delimiter(word, false), word + ("\n" + rest);
    if lines == [] {
      assert "" + last == last;
      CollectsDelimiter(d, word, rest);
    } else {
      BodyIsLines(word, lines[1..], rest);
      CollectsLine(d, lines[0], Joined(lines[1..]) + last);
      assert Joined(lines) + last == lines[0] + ("\n" + (Joined(lines[1..]) + last));
    }
  }

  /** The body of `<<-` is the lines up to the one that is the delimiter behind any tabs, each without the tabs in
      front of it. */
  lemma {:induction false} BodyIsLinesWithoutTabs(word: string, tabs: seq<string>, lines: seq<string>, before: string,
                                                  rest: string)
    requires Bare(word) && Tabs(before) && |tabs| == |lines|
    requires forall k :: 0 <= k < |lines| ==> Tabs(tabs[k]) && Bare(lines[k]) && lines[k] != word
    ensures CollectOne(Delimiter(word, true), Joined(Indented(tabs, lines)) + (before + word + ("\n" + rest)))
         == Some((Joined(lines), rest))
    decreases |lines|
  {
    hide CollectOne;
    var d, last := Delimiter(word, true), before + word + ("\n" + rest);
    if lines == [] {
      assert "" + last == last;
      TabsGo(before, word);
      CollectsDelimiter(d, before + word, rest);
    } else {
      var text := Joined(Indented(tabs[1..], lines[1..])) + last;
      BodyIsLinesWithoutTabs(word, tabs[1..], lines[1..], before, rest);
      TabsGo(tabs[0], lines[0]);
      CollectsLine(d, tabs[0] + lines[0], text);
      assert Indented(tabs, lines)[1..] == Indented(tabs[1..], lines[1..]);
      assert Joined(Indented(tabs, lines)) + last == tabs[0] + lines[0] + ("\n" + text);
    }
  }
}
