/** What option strings and argument lists mean to `getopts`, from how they are written. */
module GetoptsLaws {
  import opened Common
  import opened Text
  import opened Vars
  import opened Getopts

  /** One option letter, and whether it takes an argument. */
  datatype Declared = Declared(letter: char, takes: bool)

  /** Letters that can be declared, each once. */
  predicate WellDeclared(ds: seq<Declared>) {
    && (forall k :: 0 <= k < |ds| ==> ds[k].letter != ':')
    && (forall j, k :: 0 <= j < k < |ds| ==> ds[j].letter != ds[k].letter)
  }

  function SpecText(ds: seq<Declared>): string {
    if ds == [] then "" else [ds[0].letter] + (if ds[0].takes then ":" else "") + SpecText(ds[1..])
  }

  /** The option string that declares these letters. */
  function OptstringOf(silent: bool, ds: seq<Declared>): string {
    (if silent then ":" else "") + SpecText(ds)
  }

  lemma {:induction false} IndexInConcat(a: string, b: string, c: char)
    requires c !in a
    ensures IndexOf(a + b, c) == |a| + IndexOf(b, c)
  {
    if a == "" {
      assert a + b == b;
    } else {
      assert (a + b)[1..] == a[1..] + b && (a + b)[0] == a[0];
      IndexInConcat(a[1..], b, c);
    }
  }

  lemma SpecTextStep(ds: seq<Declared>, c: char)
    requires ds != [] && c != ':'
    ensures (var front := [ds[0].letter] + if ds[0].takes then ":" else "";
             && SpecText(ds) == front + SpecText(ds[1..])
             && (c == ds[0].letter ==> IndexOf(SpecText(ds), c) == 0)
             && (c != ds[0].letter ==> IndexOf(SpecText(ds), c) == |front| + IndexOf(SpecText(ds[1..]), c)))
  {
    var front := [ds[0].letter] + if ds[0].takes then ":" else "";
    if c != ds[0].letter {
      IndexInConcat(front, SpecText(ds[1..]), c);
    }
  }

  lemma SpecBegins(ds: seq<Declared>)
    requires WellDeclared(ds)
    ensures At(SpecText(ds), 0) != ':'
  {
    if ds != [] {
      assert ds[0].letter != ':';
    }
  }

  lemma {:induction false} LetterFound(ds: seq<Declared>, c: char)
    requires WellDeclared(ds) && c != ':'
    ensures (var k := IndexOf(SpecText(ds), c);
             && (k < |SpecText(ds)| <==> exists j :: 0 <= j < |ds| && ds[j].letter == c)
             && forall j :: 0 <= j < |ds| && ds[j].letter == c ==> (At(SpecText(ds), k + 1) == ':' <==> ds[j].takes))
    decreases |ds|
  {
    hide IndexOf;
    if ds == [] {
      NotInNothing(c);
    } else {
      SpecTextStep(ds, c);
      assert WellDeclared(ds[1..]);
      SpecBegins(ds[1..]);
      LetterFound(ds[1..], c);
      assert ds == [ds[0]] + ds[1..];
    }
  }

  lemma NotInNothing(c: char)
    ensures IndexOf("", c) == 0
  {
  }

  /** The letters of an option string are those declared, and take an argument as declared; a colon in front
      asks for silent mode and is nothing more. */
  lemma LettersAreDeclared(silent: bool, ds: seq<Declared>, c: char)
    requires WellDeclared(ds)
    ensures Silent(OptstringOf(silent, ds)) == silent
    ensures (var kind := KindOf(OptstringOf(silent, ds), c);
             && (kind == Unknown <==> forall j :: 0 <= j < |ds| ==> ds[j].letter != c)
             && forall j :: 0 <= j < |ds| && ds[j].letter == c ==> kind == if ds[j].takes then TakesArgument else Plain)
  {
    SpecBegins(ds);
    assert Spec(OptstringOf(silent, ds)) == SpecText(ds);
    if c != ':' {
      LetterFound(ds, c);
    }
    hide IndexOf, SpecText;
  }

  predicate Declares(ds: seq<Declared>, c: char, takes: bool) {
    exists k :: 0 <= k < |ds| && ds[k].letter == c && ds[k].takes == takes
  }

  lemma DeclaredKind(silent: bool, ds: seq<Declared>, c: char, takes: bool)
    requires WellDeclared(ds) && Declares(ds, c, takes)
    ensures KindOf(OptstringOf(silent, ds), c) == if takes then TakesArgument else Plain
  {
    hide KindOf, OptstringOf, WellDeclared;
    LettersAreDeclared(silent, ds, c);
  }

  /** Option letters behind one dash, of which the last may take an argument, in the same word or the next one. */
  datatype Group = Group(letters: string, taking: Option<char>, arg: string, attached: bool)

  predicate GroupOk(ds: seq<Declared>, g: Group) {
    && (g.letters != "" || g.taking.Some?) && (g.attached ==> g.arg != "")
    && (forall k :: 0 <= k < |g.letters| ==> g.letters[k] != '-' && Declares(ds, g.letters[k], false))
    && (g.taking.Some? ==> g.taking.value != '-' && Declares(ds, g.taking.value, true))
  }

  /** What stands behind the plain letters of a group in its word. */
  function TailOf(g: Group): string {
    if g.taking.None? then "" else [g.taking.value] + if g.attached then g.arg else ""
  }

  function ArgsOf(g: Group): seq<string> {
    ["-" + (g.letters + TailOf(g))] + if g.taking.Some? && !g.attached then [g.arg] else []
  }

  function LetterEvents(letters: string): seq<Event> {
    if letters == "" then [] else [Event(letters[0], None)] + LetterEvents(letters[1..])
  }

  function EventsOf(g: Group): seq<Event> {
    LetterEvents(g.letters) + if g.taking.Some? then [Event(g.taking.value, Some(g.arg))] else []
  }

  function AllArgs(gs: seq<Group>): seq<string> {
    if gs == [] then [] else ArgsOf(gs[0]) + AllArgs(gs[1..])
  }

  function AllEvents(gs: seq<Group>): seq<Event> {
    if gs == [] then [] else EventsOf(gs[0]) + AllEvents(gs[1..])
  }

  function Behind(events: seq<Event>, p: Parsed): Parsed {
    Parsed(events + p.events, p.operands)
  }

  lemma {:induction false} LettersRead(silent: bool, ds: seq<Declared>, letters: string, more: string,
                                       rest: seq<string>)
    requires WellDeclared(ds) && forall k :: 0 <= k < |letters| ==> Declares(ds, letters[k], false)
    ensures Cluster(OptstringOf(silent, ds), letters + more, rest)
         == Behind(LetterEvents(letters), Cluster(OptstringOf(silent, ds), more, rest))
    decreases |letters|
  {
    hide KindOf, OptstringOf, WellDeclared, Declares;
    var s := OptstringOf(silent, ds);
    if letters == "" {
      assert letters + more == more;
      assert Behind([], Cluster(s, more, rest)) == Cluster(s, more, rest);
    } else {
      DeclaredKind(silent, ds, letters[0], false);
      assert (letters + more)[1..] == letters[1..] + more && (letters + more)[0] == letters[0];
      LettersRead(silent, ds, letters[1..], more, rest);
    }
  }

  function BehindWord(g: Group, rest: seq<string>): seq<string> {
    (if g.taking.Some? && !g.attached then [g.arg] else []) + rest
  }

  lemma GroupWords(ds: seq<Declared>, g: Group, rest: seq<string>)
    requires GroupOk(ds, g)
    ensures (var args := ArgsOf(g) + rest;
             && args != [] && args[0] == "-" + (g.letters + TailOf(g)) && args[1..] == BehindWord(g, rest)
             && args[0][1..] == g.letters + TailOf(g) && |args[0]| > 1 && args[0][1] != '-')
  {
    hide Declares;
    var args := ArgsOf(g) + rest;
    assert args[1..] == BehindWord(g, rest);
    assert args[0][1..] == g.letters + TailOf(g);
  }

  lemma GroupBegins(s: string, g: Group, rest: seq<string>, args: seq<string>)
    requires args != [] && args[0] == "-" + (g.letters + TailOf(g)) && args[1..] == BehindWord(g, rest)
    requires args[0][1..] == g.letters + TailOf(g) && |args[0]| > 1 && args[0][1] != '-'
    ensures Options(s, args) == Cluster(s, g.letters + TailOf(g), BehindWord(g, rest))
  {
    hide Cluster, TailOf, BehindWord;
  }

  lemma TailRead(silent: bool, ds: seq<Declared>, g: Group, rest: seq<string>)
    requires WellDeclared(ds) && GroupOk(ds, g)
    ensures Cluster(OptstringOf(silent, ds), TailOf(g), BehindWord(g, rest))
         == Behind(if g.taking.Some? then [Event(g.taking.value, Some(g.arg))] else [],
                   Options(OptstringOf(silent, ds), rest))
  {
    hide KindOf, OptstringOf, WellDeclared, Declares, Options;
    if g.taking.Some? {
      DeclaredKind(silent, ds, g.taking.value, true);
      assert TailOf(g)[1..] == if g.attached then g.arg else "";
      assert !g.attached ==> BehindWord(g, rest)[1..] == rest;
      assert g.attached ==> BehindWord(g, rest) == rest;
    } else {
      assert BehindWord(g, rest) == rest;
    }
  }

  lemma GroupRead(silent: bool, ds: seq<Declared>, g: Group, rest: seq<string>)
    requires WellDeclared(ds) && GroupOk(ds, g)
    ensures Options(OptstringOf(silent, ds), ArgsOf(g) + rest)
         == Behind(EventsOf(g), Options(OptstringOf(silent, ds), rest))
  {
    hide OptstringOf, WellDeclared, Declares, LetterEvents, Options, Cluster, TailOf, BehindWord, ArgsOf;
    var s := OptstringOf(silent, ds);
    GroupWords(ds, g, rest);
    GroupBegins(s, g, rest, ArgsOf(g) + rest);
    LettersRead(silent, ds, g.letters, TailOf(g), BehindWord(g, rest));
    TailRead(silent, ds, g, rest);
  }

  /** Options written as the syntax guidelines have them are read back: letters of their own or behind one dash,
      arguments in the same word or the next one, and the operands behind `--` or from the first word that is
      no option. */
  lemma {:induction false} ArgumentsReadBack(silent: bool, ds: seq<Declared>, gs: seq<Group>, ended: bool,
                                             operands: seq<string>)
    requires WellDeclared(ds) && forall k :: 0 <= k < |gs| ==> GroupOk(ds, gs[k])
    requires ended || operands == [] || operands[0] == "" || operands[0] == "-" || operands[0][0] != '-'
    ensures Options(OptstringOf(silent, ds), AllArgs(gs) + ((if ended then ["--"] else []) + operands))
         == Parsed(AllEvents(gs), operands)
    decreases |gs|
  {
    hide OptstringOf, WellDeclared, GroupOk, ArgsOf, EventsOf;
    var s := OptstringOf(silent, ds);
    var end := (if ended then ["--"] else []) + operands;
    if gs == [] {
      assert AllArgs(gs) + end == end;
      assert ended ==> end[1..] == operands;
      hide Cluster;
    } else {
      hide Options;
      assert AllArgs(gs) + end == ArgsOf(gs[0]) + (AllArgs(gs[1..]) + end);
      GroupRead(silent, ds, gs[0], AllArgs(gs[1..]) + end);
      ArgumentsReadBack(silent, ds, gs[1..], ended, operands);
    }
  }

  /** A letter that is not declared gives `?`, and one whose argument is missing gives `:` in silent mode and `?`
      otherwise; the letter is reported in silent mode. */
  lemma OddLettersAreReported(silent: bool, ds: seq<Declared>, c: char, args: seq<string>)
    requires WellDeclared(ds) && c != '-'
    ensures (forall k :: 0 <= k < |ds| ==> ds[k].letter != c) ==>
              Options(OptstringOf(silent, ds), [['-', c]] + args)
              == Behind([Event('?', if silent then Some([c]) else None)], Options(OptstringOf(silent, ds), args))
    ensures Declares(ds, c, true) ==>
              Options(OptstringOf(silent, ds), [['-', c]])
              == Parsed([if silent then Event(':', Some([c])) else Event('?', None)], [])
  {
    hide KindOf, OptstringOf, WellDeclared, Silent;
    var s := OptstringOf(silent, ds);
    LettersAreDeclared(silent, ds, c);
    var all := [['-', c]] + args;
    assert all[0] == ['-', c] && all[1..] == args && ['-', c][1..] == [c] && [c][1..] == "";
    assert [['-', c]][1..] == [];
    if Declares(ds, c, true) {
      DeclaredKind(silent, ds, c, true);
    }
    assert Cluster(s, "", args) == Options(s, args);
  }

  /** A position that is unset, empty, 0 or a word is the first one. */
  lemma OddPositionIsFirst(st: Store)
    ensures Get(st, "OPTIND") in {None, Some(""), Some("0")} ==> ReadOptind(st) == 1
    ensures Get(st, "OPTIND").Some? && IsName(Get(st, "OPTIND").value) ==> ReadOptind(st) == 1
  {
    var k := Find(st, "OPTIND");
    if k < |st| && st[k].value == "0" {
      SpaceEndIs("0", 0, 0);
      DigitEndIs("0", 0, 1, 10);
      assert Magnitude("0", 0, 0, 10) == 0;
    }
    if k < |st| && IsName(st[k].value) {
      var s := st[k].value;
      SpaceEndIs(s, 0, 0);
      LetterIsNoDigit(s);
    }
  }

  lemma LetterIsNoDigit(s: string)
    requires IsName(s)
    ensures DigitEnd(s, 0, 10) == 0
  {
  }

  /** A call goes on inside an argument only with the option string and the position that the last one left. */
  lemma ChangesRestart(g: State, optstring: string, n: nat)
    requires Get(g.vars, "OPTIND") == Some(Decimal(n)) && 1 <= n <= ULONG_MAX
    ensures StartAt(g, optstring)
         == (n, if n == g.lastOptind && g.lastOptstring == Some(optstring) then g.nextChar else 0)
  {
    hide ReadOptind, Decimal;
    OptindReadsBack(g.vars, n);
  }
}
