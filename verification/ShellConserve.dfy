/** Whatever the parser accepts, it keeps: the tree has the form of the grammar, and its words hold the
    characters of the text, all of them, in order. */
module ShellConserve {
  import opened Common
  import opened Text
  import opened ShellSyntax

  /** A character that must come back in some word. */
  predicate Kept(c: char) {
    !IsSpace(c) && !Operator(c) && c != '!'
  }

  function Letters(s: string, i: nat, j: nat): string
    requires i <= j <= |s|
    decreases j - i
  {
    if i == j then "" else (if Kept(s[i]) then [s[i]] else "") + Letters(s, i + 1, j)
  }

  function WordLetters(words: seq<string>): string {
    if words == [] then "" else Letters(words[0], 0, |words[0]|) + WordLetters(words[1..])
  }

  function TreeLetters(n: Node): string {
    match n
    case Empty => ""
    case Simple(words) => WordLetters(words)
    case Subshell(body) => TreeLetters(body)
    case Pipeline(stages, _) => AllLetters(stages)
    case AndOr(parts, _) => AllLetters(parts)
    case Async(child) => TreeLetters(child)
    case Sequence(items) => AllLetters(items)
  }

  function AllLetters(ns: seq<Node>): string {
    if ns == [] then "" else TreeLetters(ns[0]) + AllLetters(ns[1..])
  }

  /** The form of the grammar: what may stand in a pipeline (rank 0), an and-or list (1), before `&` (2),
      in a list (3), and in a program or subshell (4); no list of one and no empty word. */
  predicate Shaped(n: Node, rank: nat) {
    match n
    case Empty => rank >= 4
    case Simple(words) =>
      words != [] && forall k :: 0 <= k < |words| ==> words[k] != "" && forall c :: c in words[k] ==> !IsSpace(c)
    case Subshell(body) => Shaped(body, 4)
    case Pipeline(stages, negate) =>
      rank >= 1 && (|stages| >= 2 || (negate && |stages| == 1)) &&
      forall k :: 0 <= k < |stages| ==> Shaped(stages[k], 0)
    case AndOr(parts, operators) =>
      rank >= 2 && |parts| >= 2 && |operators| == |parts| - 1 && forall k :: 0 <= k < |parts| ==> Shaped(parts[k], 1)
    case Async(child) => rank >= 3 && Shaped(child, 2)
    case Sequence(items) => rank >= 4 && |items| >= 2 && forall k :: 0 <= k < |items| ==> Shaped(items[k], 3)
  }

  lemma {:induction false} LettersSplit(s: string, i: nat, k: nat, j: nat)
    requires i <= k <= j <= |s|
    ensures Letters(s, i, j) == Letters(s, i, k) + Letters(s, k, j)
    decreases k - i
  {
    hide Kept;
    if i < k {
      LettersSplit(s, i + 1, k, j);
    }
  }

  lemma {:induction false} NoLetters(s: string, i: nat, j: nat)
    requires i <= j <= |s| && forall k :: i <= k < j ==> !Kept(s[k])
    ensures Letters(s, i, j) == ""
    decreases j - i
  {
    hide Kept;
    if i < j {
      NoLetters(s, i + 1, j);
    }
  }

  lemma LettersStep(s: string, i: nat, j: nat)
    requires i <= j <= |s|
    ensures Letters(s, i, j) == if i == j then "" else (if Kept(s[i]) then [s[i]] else "") + Letters(s, i + 1, j)
  {
  }

  lemma {:induction false} SliceLetters(s: string, a: nat, b: nat, i: nat)
    requires a <= b <= |s| && i <= b - a
    ensures Letters(s[a..b], i, b - a) == Letters(s, a + i, b)
    decreases b - a - i
  {
    hide Kept, Letters;
    LettersStep(s[a..b], i, b - a);
    LettersStep(s, a + i, b);
    if i < b - a {
      assert s[a..b][i] == s[a + i];
      SliceLetters(s, a, b, i + 1);
    }
  }

  /** What is left of a range between its trimmed ends and in front of a cut. */
  lemma LettersAround(s: string, start: nat, b: nat, p: nat, next: nat, end: nat)
    requires start <= b <= p <= next <= end <= |s|
    requires forall k :: start <= k < b ==> !Kept(s[k])
    requires forall k :: p <= k < next ==> !Kept(s[k])
    ensures Letters(s, start, end) == Letters(s, b, p) + Letters(s, next, end)
  {
    hide Letters, Kept;
    LettersSplit(s, start, b, end);
    LettersSplit(s, b, p, end);
    LettersSplit(s, p, next, end);
    NoLetters(s, start, b);
    NoLetters(s, p, next);
  }

  lemma {:induction false} WordsKeep(s: string, i: nat)
    requires i <= |s|
    ensures WordLetters(Words(s, i)) == Letters(s, i, |s|)
    ensures forall k :: 0 <= k < |Words(s, i)| ==>
              Words(s, i)[k] != "" && forall c :: c in Words(s, i)[k] ==> !IsSpace(c)
    ensures i < |s| && !IsSpace(s[i]) ==> Words(s, i) != []
    decreases |s| - i
  {
    hide BlankFrom, IsSpace, Operator;
    if i == |s| {
    } else if IsSpace(s[i]) {
      WordsKeep(s, i + 1);
    } else {
      var e := BlankFrom(s, i);
      WordsKeep(s, e);
      LettersSplit(s, i, e, |s|);
      var w := s[i..e];
      SliceLetters(s, i, e, 0);
      assert Words(s, i) == [w] + Words(s, e);
      assert WordLetters([w] + Words(s, e)) == Letters(w, 0, |w|) + WordLetters(Words(s, e)) by {
        assert ([w] + Words(s, e))[1..] == Words(s, e);
      }
    }
  }

  lemma {:induction false} AllAppend(n: Node, ns: seq<Node>)
    ensures AllLetters([n] + ns) == TreeLetters(n) + AllLetters(ns)
    ensures AllLetters([n]) == TreeLetters(n)
  {
    assert ([n] + ns)[1..] == ns;
  }

  lemma {:induction false} AtomKeeps(s: string, start: nat, end: nat)
    requires start < end <= |s| && !IsSpace(s[start])
    ensures (var r := ParseAtom(s, start, end);
             r.Parsed? ==> Shaped(r.value, 0) && TreeLetters(r.value) == Letters(s, start, end))
    decreases end - start, 0
  {
    hide FunctionHead, GroupClose, Words, ParseList, TrimStart, TrimEnd, Letters, BlankFrom;
    StartsAt(s, start, end);
    var b := TrimEnd(s, start, end);
    var text := s[start..b];
    LettersAround(s, start, start, b, end, end);
    NoLetters(s, end, end);
    var close := GroupClose(text);
    if close.Some? {
      GroupIsInner(text);
      ListKeeps(s, start + 1, start + close.value);
      GroupLetters(s, start, b, close.value);
    } else {
      WordsKeep(text, 0);
      SliceLetters(s, start, b, 0);
    }
  }

  lemma StartsAt(s: string, start: nat, end: nat)
    requires start < end <= |s| && !IsSpace(s[start])
    ensures TrimStart(s, start, end) == start && start < TrimEnd(s, start, end) <= end
  {
  }

  lemma GroupIsInner(text: string)
    requires GroupClose(text).Some?
    ensures (var close := GroupClose(text).value;
             text[0] == '(' && text[close] == ')' && forall k :: close < k < |text| ==> IsSpace(text[k]))
  {
    hide NextCut, SpaceEnd;
  }

  lemma GroupLetters(s: string, start: nat, b: nat, close: nat)
    requires start <= b <= |s| && 1 <= close < b - start
    requires s[start] == '(' && s[start + close] == ')'
    requires forall k :: close < k < b - start ==> IsSpace(s[start..b][k])
    ensures Letters(s, start, b) == Letters(s, start + 1, start + close)
  {
    hide Letters;
    forall k | start + close < k < b ensures !Kept(s[k]) {
      assert s[start..b][k - start] == s[k];
    }
    LettersAround(s, start, start + 1, start + close, b, b);
    NoLetters(s, b, b);
  }

  lemma CutIsNotKept(level: Level, s: string, p: nat, end: nat)
    requires p < end <= |s| && IsCut(level, s, p, end)
    ensures !Kept(s[p]) && (level == OfAndOr ==> p + 2 <= end && !Kept(s[p + 1]))
  {
  }

  lemma {:induction false} StagesKeep(s: string, start: nat, end: nat)
    requires start <= end <= |s|
    ensures (var r := Stages(s, start, end);
             r.Parsed? ==> r.value != [] && (forall k :: 0 <= k < |r.value| ==> Shaped(r.value[k], 0))
                           && AllLetters(r.value) == Letters(s, start, end))
    decreases end - start, 1
  {
    hide NextCut, TrimStart, ParseAtom, Letters, AllLetters, Shaped, IsSpace, Operator;
    var p := NextCut(OfPipeline, s, start, end, 0);
    var b := TrimStart(s, start, p);
    if b < p && ParseAtom(s, b, p).Parsed? {
      AtomKeeps(s, b, p);
      var n := ParseAtom(s, b, p).value;
      if p == end {
        AllAppend(n, []);
        LettersAround(s, start, b, p, end, end);
        NoLetters(s, end, end);
      } else {
        CutIsNotKept(OfPipeline, s, p, end);
        LettersAround(s, start, b, p, p + 1, end);
        StagesKeep(s, p + 1, end);
        if Stages(s, p + 1, end).Parsed? {
          AllAppend(n, Stages(s, p + 1, end).value);
        }
      }
    }
  }

  lemma {:induction false} BangsKeep(s: string, i: nat, end: nat, negate: bool)
    requires i <= end <= |s|
    ensures Letters(s, SkipBangs(s, i, end, negate).0, end) == Letters(s, i, end)
    decreases end - i
  {
    hide Letters, TrimStart;
    var b := TrimStart(s, i, end);
    LettersAround(s, i, b, end, end, end);
    NoLetters(s, end, end);
    if b < end && s[b] == '!' {
      BangsKeep(s, b + 1, end, !negate);
      LettersAround(s, b, b + 1, end, end, end);
    }
  }

  lemma {:induction false} PipelineKeeps(s: string, start: nat, end: nat)
    requires start <= end <= |s|
    ensures (var r := ParsePipeline(s, start, end);
             r.Parsed? ==> Shaped(r.value, 1) && TreeLetters(r.value) == Letters(s, start, end))
    decreases end - start, 2
  {
    hide Stages, SkipBangs, Letters, IsSpace;
    var (b, negate) := SkipBangs(s, start, end, false);
    BangsKeep(s, start, end, false);
    StagesKeep(s, b, end);
    if Stages(s, b, end).Parsed? {
      var stages := Stages(s, b, end).value;
      RankUp(stages[0], 0, 1);
      AllAppend(stages[0], []);
      assert |stages| == 1 ==> stages == [stages[0]];
    }
  }

  lemma RankUp(n: Node, rank: nat, more: nat)
    requires Shaped(n, rank) && rank <= more
    ensures Shaped(n, more)
  {
  }

  lemma {:induction false} PartsKeep(s: string, start: nat, end: nat)
    requires start <= end <= |s|
    ensures (var r := Parts(s, start, end);
             r.Parsed? ==>
               && |r.value.0| >= 1 && |r.value.1| == |r.value.0| - 1
               && (forall k :: 0 <= k < |r.value.0| ==> Shaped(r.value.0[k], 1))
               && AllLetters(r.value.0) == Letters(s, start, end))
    decreases end - start, 3
  {
    hide NextCut, TrimStart, ParsePipeline, Letters, AllLetters, Shaped, IsSpace, Operator;
    var p := NextCut(OfAndOr, s, start, end, 0);
    var b := TrimStart(s, start, p);
    if b < p && ParsePipeline(s, b, p).Parsed? {
      PipelineKeeps(s, b, p);
      var n := ParsePipeline(s, b, p).value;
      if p == end {
        AllAppend(n, []);
        LettersAround(s, start, b, p, end, end);
        NoLetters(s, end, end);
      } else {
        CutIsNotKept(OfAndOr, s, p, end);
        LettersAround(s, start, b, p, p + 2, end);
        PartsKeep(s, p + 2, end);
        if Parts(s, p + 2, end).Parsed? {
          AllAppend(n, Parts(s, p + 2, end).value.0);
        }
      }
    }
  }

  lemma {:induction false} AndOrKeeps(s: string, start: nat, end: nat)
    requires start <= end <= |s|
    ensures (var r := ParseAndOr(s, start, end);
             r.Parsed? ==> Shaped(r.value, 2) && TreeLetters(r.value) == Letters(s, start, end))
    decreases end - start, 4
  {
    hide Parts, Letters, IsSpace;
    PartsKeep(s, start, end);
    if Parts(s, start, end).Parsed? {
      var parts := Parts(s, start, end).value.0;
      RankUp(parts[0], 1, 2);
      AllAppend(parts[0], []);
      assert |parts| == 1 ==> parts == [parts[0]];
    }
  }

  lemma {:induction false} ItemsKeep(s: string, start: nat, end: nat)
    requires start <= end <= |s|
    ensures (var r := Items(s, start, end);
             r.Parsed? ==> (forall k :: 0 <= k < |r.value| ==> Shaped(r.value[k], 3))
                           && AllLetters(r.value) == Letters(s, start, end))
    decreases end - start, 5
  {
    hide NextCut, TrimStart, ParseAndOr, Letters, AllLetters, IsSpace, Operator;
    var p := NextCut(OfList, s, start, end, 0);
    var b := TrimStart(s, start, p);
    var next := if p < end then p + 1 else end;
    if p < end {
      CutIsNotKept(OfList, s, p, end);
      ItemsKeep(s, p + 1, end);
    }
    NoLetters(s, end, end);
    NoLetters(s, p, p);
    LettersAround(s, start, b, p, next, end);
    if b < p && ParseAndOr(s, b, p).Parsed? {
      AndOrKeeps(s, b, p);
      var n := ParseAndOr(s, b, p).value;
      RankUp(n, 2, 3);
      var item := if p < end && s[p] == '&' then Async(n) else n;
      AllAppend(item, []);
      if p < end && Items(s, p + 1, end).Parsed? {
        AllAppend(item, Items(s, p + 1, end).value);
      }
    } else {
      NoneAreLetterless();
    }
  }

  lemma NoneAreLetterless()
    ensures AllLetters([]) == ""
  {
  }

  lemma {:induction false} ListKeeps(s: string, start: nat, end: nat)
    requires start <= end <= |s|
    ensures (var r := ParseList(s, start, end);
             r.Parsed? ==> Shaped(r.value, 4) && TreeLetters(r.value) == Letters(s, start, end))
    decreases end - start, 6
  {
    hide Items, Letters, IsSpace;
    ItemsKeep(s, start, end);
    if Items(s, start, end).Parsed? && Items(s, start, end).value != [] {
      var items := Items(s, start, end).value;
      RankUp(items[0], 3, 4);
      AllAppend(items[0], []);
      assert |items| == 1 ==> items == [items[0]];
    }
  }

  /** For every text: what is parsed has the form of the grammar, and no character of any word is
      dropped, invented or moved. */
  lemma ParserConserves(s: string)
    ensures (var r := ParseProgram(s);
             r.Parsed? ==> Shaped(r.value, 4) && TreeLetters(r.value) == Letters(s, 0, |s|))
  {
    hide ParseList, Shaped, Letters;
    ListKeeps(s, 0, |s|);
  }
}
