/** `getopts`: one option each call, from a position that is kept partly in a variable and partly in
    static state. */
module Getopts {
  import opened CLong
  import opened Common
  import opened Text
  import opened Symbols
  import opened Vars

  const ULONG_MAX: nat := TWO_64 - 1

  // ---------- the options of an argument list ----------

  /** What one call leaves in the named variable and in OPTARG. */
  datatype Event = Event(name: char, optarg: Option<string>)

  /** The options of an argument list and the operands behind them. */
  datatype Parsed = Parsed(events: seq<Event>, operands: seq<string>)

  datatype Kind = Unknown | Plain | TakesArgument

  function IndexOf(s: string, c: char): (k: nat)
    ensures k <= |s| && (k < |s| ==> s[k] == c)
  {
    if s == "" || s[0] == c then 0 else 1 + IndexOf(s[1..], c)
  }

  /** A leading colon asks for silent mode and is no option. */
  predicate Silent(optstring: string) {
    At(optstring, 0) == ':'
  }

  function Spec(optstring: string): string {
    if Silent(optstring) then optstring[1..] else optstring
  }

  function KindOf(optstring: string, c: char): Kind {
    var k := IndexOf(Spec(optstring), c);
    if k == |Spec(optstring)| || c == ':' then Unknown
    else if At(Spec(optstring), k + 1) == ':' then TakesArgument
    else Plain
  }

  function UnknownEvent(optstring: string, c: char): Event {
    Event('?', if Silent(optstring) then Some([c]) else None)
  }

  function MissingEvent(optstring: string, c: char): Event {
    if Silent(optstring) then Event(':', Some([c])) else Event('?', None)
  }

  predicate IsOperand(arg: string) {
    At(arg, 0) != '-' || |arg| == 1
  }

  function Before(e: Event, p: Parsed): Parsed {
    Parsed([e] + p.events, p.operands)
  }

  /** The options of an argument list that has just begun. */
  function Options(optstring: string, args: seq<string>): Parsed
    decreases |args|, 0
  {
    if args == [] || IsOperand(args[0]) then Parsed([], args)
    else if args[0] == "--" then Parsed([], args[1..])
    else Cluster(optstring, args[0][1..], args[1..])
  }

  /** The options of a cluster of option letters, and of the arguments behind it. */
  function Cluster(optstring: string, letters: string, rest: seq<string>): Parsed
    decreases |rest|, 1 + |letters|
  {
    if letters == "" then Options(optstring, rest)
    else
      var c := letters[0];
      match KindOf(optstring, c)
      case Unknown => Before(UnknownEvent(optstring, c), Cluster(optstring, letters[1..], rest))
      case Plain => Before(Event(c, None), Cluster(optstring, letters[1..], rest))
      case TakesArgument =>
        if |letters| > 1 then Before(Event(c, Some(letters[1..])), Options(optstring, rest))
        else if rest != [] then Before(Event(c, Some(rest[0])), Options(optstring, rest[1..]))
        else Before(MissingEvent(optstring, c), Parsed([], []))
  }

  // ---------- one call ----------

  /** `nextChar`, `lastOptind` and `lastOptstring` are the static variables of the builtin. */
  datatype State = State(vars: Store, nextChar: nat, lastOptind: nat, lastOptstring: Option<string>)

  /** `strtoul(text, &end, 10)`, of which anything odd counts as 1. */
  function ReadOptind(st: Store): (n: nat)
    ensures 1 <= n
  {
    var k := Find(st, "OPTIND");
    if k == |st| || st[k].value == "" then 1
    else
      var s := st[k].value;
      var j := SpaceEnd(s, 0);
      var d := if At(s, j) in {'+', '-'} then j + 1 else j;
      var e := DigitEnd(s, d, 10);
      var m := Magnitude(s, d, e, 10);
      if e == d || e < |s| || m > ULONG_MAX || m == 0 then 1
      else if At(s, j) == '-' then TWO_64 - m
      else m
  }

  /** `rc`, the event if there is one, and where the scan goes on. */
  datatype Found = Found(rc: int, event: Event, strict: bool, optind: nat, next: nat)

  function NextPlace(arg: string, optind: nat, next: nat): (nat, nat) {
    if next < |arg| then (optind, next) else (optind + 1, 0)
  }

  function ScanLetter(optstring: string, args: seq<string>, optind: nat, at: nat): Found
    requires 1 <= optind <= |args| && at < |args[optind - 1]|
  {
    var arg := args[optind - 1];
    var c := arg[at];
    var (optind', next') := NextPlace(arg, optind, at + 1);
    match KindOf(optstring, c)
    case Unknown => Found(0, UnknownEvent(optstring, c), false, optind', next')
    case Plain => Found(0, Event(c, None), true, optind', next')
    case TakesArgument =>
      if at + 1 < |arg| then Found(0, Event(c, Some(arg[at + 1..])), false, optind + 1, 0)
      else if optind < |args| then Found(0, Event(c, Some(args[optind])), false, optind + 2, 0)
      else Found(0, MissingEvent(optstring, c), false, optind + 1, 0)
  }

  function End(optind: nat): Found {
    Found(1, Event('?', None), true, optind, 0)
  }

  /** A position inside an argument is inside it; only the same argument list gets it back. */
  predicate InRange(args: seq<string>, optind: nat, next: nat) {
    next > 0 ==> 1 <= optind <= |args| && next <= |args[optind - 1]|
  }

  function Scan(optstring: string, args: seq<string>, optind: nat, next: nat): Found
    requires optind >= 1 && InRange(args, optind, next)
    decreases |args| + 1 - optind, next
  {
    if next == 0 then
      if optind > |args| || IsOperand(args[optind - 1]) then End(optind)
      else if args[optind - 1] == "--" then End(optind + 1)
      else ScanLetter(optstring, args, optind, 1)
    else if next == |args[optind - 1]| then Scan(optstring, args, optind + 1, 0)
    else ScanLetter(optstring, args, optind, next)
  }

  function SetVar(st: Store, name: string, value: string): Option<Store> {
    if IsName(name) && Writable(st, name) then Some(Put(st, name, value, false, false)) else None
  }

  function UnsetVar(st: Store, name: string): Store {
    var k := Find(st, name);
    if k < |st| && !st[k].readonly then Without(st, k) else st
  }

  /** Leaves the event in the variables; a read-only one stops it. */
  function RecordEvent(st: Store, varname: string, f: Found): (Store, bool) {
    var named := SetVar(st, varname, [f.event.name]);
    if named.None? then (st, false)
    else
      var withArg := if f.event.optarg.Some? then SetVar(named.value, "OPTARG", f.event.optarg.value)
                     else if f.strict && !Writable(named.value, "OPTARG") then None
                     else Some(UnsetVar(named.value, "OPTARG"));
      if withArg.None? then (named.value, false)
      else
        var placed := SetVar(withArg.value, "OPTIND", Decimal(f.optind));
        if placed.None? then (withArg.value, false) else (placed.value, true)
  }

  function StartAt(g: State, optstring: string): (nat, nat) {
    var optind := ReadOptind(g.vars);
    (optind, if g.lastOptstring != Some(optstring) || optind != g.lastOptind then 0 else g.nextChar)
  }

  predicate Callable(g: State, optstring: string, args: seq<string>) {
    InRange(args, StartAt(g, optstring).0, StartAt(g, optstring).1)
  }

  function Call(g: State, optstring: string, varname: string, args: seq<string>): (State, int)
    requires Callable(g, optstring, args)
  {
    if !IsName(varname) then (g, 1)
    else
      var (optind, next) := StartAt(g, optstring);
      var f := Scan(optstring, args, optind, next);
      var (vars, ok) := RecordEvent(g.vars, varname, f);
      (State(vars, f.next, if ok then f.optind else g.lastOptind, Some(optstring)), if ok then f.rc else 1)
  }

  // ---------- the builtin ----------

  class Builtin {
    const vars: Variables
    /** The static variables. */
    var nextChar: nat
    var lastOptind: nat
    var lastOptstring: Option<string>

    constructor (vars: Variables)
      ensures this.vars == vars && nextChar == 0 && lastOptind == 0 && lastOptstring == None
    {
      this.vars := vars;
      nextChar, lastOptind, lastOptstring := 0, 0, None;
    }

    ghost function View(): State
      reads this, vars, vars.table, vars.table.list
    {
      State(vars.View(), nextChar, lastOptind, lastOptstring)
    }

    method ReadOptindVar() returns (n: nat)
      requires vars.Valid()
      modifies vars`mru
      ensures vars.Valid() && vars.View() == old(vars.View()) && n == ReadOptind(vars.View())
    {
      hide Find, Magnitude, DigitEnd, SpaceEnd, Symbols.Hash;
      var entry := vars.LookupEntry("OPTIND");
      if entry == null || entry.data.value == "" {
        return 1;
      }
      var s := entry.data.value;
      var start := SpaceEnd(s, 0);
      var digits := if At(s, start) in {'+', '-'} then start + 1 else start;
      var end := DigitEnd(s, digits, 10);
      var parsed := Magnitude(s, digits, end, 10);
      if end == digits || end < |s| || parsed > ULONG_MAX || parsed == 0 {
        return 1;
      }
      n := if At(s, start) == '-' then TWO_64 - parsed else parsed;
    }

    /** Finds the next option letter from a position, stepping over finished arguments. */
    method FindLetter(ghost optstring: string, args: seq<string>, optind0: nat,
                      next0: nat) returns (ended: bool, optind: nat, at: nat)
      requires optind0 >= 1 && InRange(args, optind0, next0)
      ensures ended ==> Scan(optstring, args, optind0, next0) == End(optind)
      ensures !ended ==> 1 <= optind <= |args| && at < |args[optind - 1]|
      ensures !ended ==> Scan(optstring, args, optind0, next0) == ScanLetter(optstring, args, optind, at)
    {
      optind, at := optind0, next0;
      while true
        invariant optind >= 1 && InRange(args, optind, at)
        invariant Scan(optstring, args, optind, at) == Scan(optstring, args, optind0, next0)
        decreases |args| + 1 - optind, at
      {
        if at == 0 {
          if optind > |args| {
            return true, optind, 0;
          }
          if IsOperand(args[optind - 1]) {
            return true, optind, 0;
          }
          if args[optind - 1] == "--" {
            return true, optind + 1, 0;
          }
          return false, optind, 1;
        }
        if at == |args[optind - 1]| {
          optind, at := optind + 1, 0;
        } else {
          return false, optind, at;
        }
      }
    }

    /** Sets or unsets OPTARG; the answer is false when it is read-only and that matters. */
    method SetOptarg(optarg: Option<string>, strict: bool) returns (ok: bool)
      requires vars.Valid()
      modifies vars`mru, vars`execEnvp, vars`execEnvpDirty, vars.table, vars.table.list
      ensures vars.Valid()
      ensures (var st := old(vars.View());
               var after := if optarg.Some? then SetVar(st, "OPTARG", optarg.value)
                            else if strict && !Writable(st, "OPTARG") then None
                            else Some(UnsetVar(st, "OPTARG"));
               ok == after.Some? && vars.View() == if ok then after.value else st)
      ensures forall j :: 0 <= j < |vars.table.list| ==>
                vars.table.list[j] in old(vars.table.list) || fresh(vars.table.list[j])
    {
      hide Put, Find, IsName, Symbols.Hash, Table.Valid, VarOk, Variables.View;
      NamesAreNames();
      if optarg.Some? {
        var rc := vars.SetWithMode("OPTARG", optarg.value, true, false);
        ok := rc == 0;
      } else {
        var rc := vars.Unset("OPTARG");
        ok := rc == 0 || !strict;
      }
    }

    /** What an option letter stands for, and where its argument is. */
    method TakeLetter(optstring: string, args: seq<string>, optind: nat, at: nat) returns (f: Found)
      requires 1 <= optind <= |args| && at < |args[optind - 1]|
      ensures f == ScanLetter(optstring, args, optind, at)
    {
      hide IndexOf;
      var current := args[optind - 1];
      var letter := current[at];
      var silent := At(optstring, 0) == ':';
      var spec := if silent then optstring[1..] else optstring;
      var found := IndexOf(spec, letter);
      var place, next := optind, at + 1;
      if found == |spec| || letter == ':' {
        if next == |current| {
          place, next := place + 1, 0;
        }
        return Found(0, Event('?', if silent then Some([letter]) else None), false, place, next);
      }
      if At(spec, found + 1) == ':' {
        if next < |current| {
          return Found(0, Event(letter, Some(current[next..])), false, place + 1, 0);
        }
        if place < |args| {
          return Found(0, Event(letter, Some(args[place])), false, place + 2, 0);
        }
        if silent {
          return Found(0, Event(':', Some([letter])), false, place + 1, 0);
        }
        return Found(0, Event('?', None), false, place + 1, 0);
      }
      if next == |current| {
        place, next := place + 1, 0;
      }
      return Found(0, Event(letter, None), true, place, next);
    }

    /** Writes the variables; the answer is false if a read-only one stopped it. */
    method RecordFound(varname: string, f: Found) returns (ok: bool)
      requires vars.Valid() && IsName(varname)
      modifies vars`mru, vars`execEnvp, vars`execEnvpDirty, vars.table, vars.table.list
      ensures vars.Valid() && (vars.View(), ok) == RecordEvent(old(vars.View()), varname, f)
    {
      hide Put, Find, IsName, Symbols.Hash, Decimal, UnsetVar, Table.Valid, VarOk, Variables.View, Writable;
      NamesAreNames();
      var rc := vars.SetWithMode(varname, [f.event.name], true, false);
      if rc != 0 {
        return false;
      }
      ok := SetOptarg(f.event.optarg, f.strict);
      if !ok {
        return;
      }
      rc := vars.SetWithMode("OPTIND", Decimal(f.optind), true, false);
      ok := rc == 0;
    }

    /** Finds the next option from where the last call left off. */
    method FindNext(optstring: string, args: seq<string>) returns (f: Found)
      requires vars.Valid() && Callable(View(), optstring, args)
      modifies vars`mru
      ensures vars.Valid() && vars.View() == old(vars.View())
      ensures (var (optind, next) := StartAt(View(), optstring);
               InRange(args, optind, next) && f == Scan(optstring, args, optind, next))
    {
      hide Find, Scan, ReadOptind, ScanLetter, Table.Valid, VarOk, Variables.View;
      var optind := ReadOptindVar();
      var next := nextChar;
      if lastOptstring != Some(optstring) || optind != lastOptind {
        next := 0;
      }
      var ended, place, at := FindLetter(optstring, args, optind, next);
      if ended {
        return End(place);
      }
      f := TakeLetter(optstring, args, place, at);
    }

    method Run(optstring: string, varname: string, args: seq<string>) returns (rc: int)
      requires vars.Valid() && Callable(View(), optstring, args)
      modifies this, vars`mru, vars`execEnvp, vars`execEnvpDirty, vars.table, vars.table.list
      ensures vars.Valid()
      ensures (View(), rc) == Call(old(View()), optstring, varname, args)
    {
      hide Find, IsName, Scan, ReadOptind, RecordEvent, InRange, Table.Valid, VarOk, Variables.View;
      if !IsName(varname) {
        return 1;
      }
      ghost var g := View();
      var f := FindNext(optstring, args);
      var ok := RecordFound(varname, f);
      SetPlace(optstring, f, ok);
      rc := if ok then f.rc else 1;
    }

    method SetPlace(optstring: string, f: Found, ok: bool)
      modifies this
      ensures nextChar == f.next && lastOptstring == Some(optstring)
      ensures lastOptind == if ok then f.optind else old(lastOptind)
    {
      lastOptstring := Some(optstring);
      nextChar := f.next;
      if ok {
        lastOptind := f.optind;
      }
    }
  }

  // ---------- the whole run ----------

  /** What is left of the options from a position on. */
  function Remaining(optstring: string, args: seq<string>, optind: nat, next: nat): Parsed
    requires optind >= 1 && InRange(args, optind, next)
  {
    if next == 0 then Options(optstring, if optind <= |args| then args[optind - 1..] else [])
    else Cluster(optstring, args[optind - 1][next..], args[optind..])
  }

  /** One scan takes the first of the remaining options, or finds that there is none. */
  lemma {:induction false} ScanIsFirst(optstring: string, args: seq<string>, optind: nat, next: nat)
    requires optind >= 1 && InRange(args, optind, next) && optind <= |args| + 1
    ensures (var f := Scan(optstring, args, optind, next);
             var left := Remaining(optstring, args, optind, next);
             && 1 <= f.optind <= |args| + 1 && InRange(args, f.optind, f.next)
             && if f.rc == 1 then left == Parsed([], args[f.optind - 1..]) && f.next == 0 && f.event == Event('?', None)
                else left == Before(f.event, Remaining(optstring, args, f.optind, f.next)) && f.rc == 0)
    decreases |args| + 1 - optind, next
  {
    hide KindOf;
    if next == 0 {
      if optind <= |args| {
        var arg := args[optind - 1];
        assert args[optind - 1..][0] == arg && args[optind - 1..][1..] == args[optind..];
        if !IsOperand(arg) && arg != "--" {
          LetterIsFirst(optstring, args, optind, 1);
        }
      }
    } else if next == |args[optind - 1]| {
      ScanIsFirst(optstring, args, optind + 1, 0);
      assert args[optind - 1][next..] == "";
      assert optind == |args| ==> args[optind..] == [];
    } else {
      LetterIsFirst(optstring, args, optind, next);
    }
  }

  lemma LetterIsFirst(optstring: string, args: seq<string>, optind: nat, at: nat)
    requires 1 <= optind <= |args| && 1 <= at < |args[optind - 1]|
    ensures (var f := ScanLetter(optstring, args, optind, at);
             && f.rc == 0 && 1 <= f.optind <= |args| + 1 && InRange(args, f.optind, f.next)
             && Cluster(optstring, args[optind - 1][at..], args[optind..]) ==
                Before(f.event, Remaining(optstring, args, f.optind, f.next)))
  {
    hide KindOf;
    var arg := args[optind - 1];
    var letters, rest := arg[at..], args[optind..];
    assert letters[0] == arg[at] && letters[1..] == arg[at + 1..];
    assert rest == if optind + 1 <= |args| + 1 && optind < |args| then args[optind..] else [];
    if at + 1 == |arg| {
      assert letters[1..] == "";
    }
    if rest != [] {
      assert rest[1..] == args[optind + 1..];
    }
  }

  // ---------- the variables ----------

  function Lookup(st: Store, name: string): Option<Record> {
    var k := Find(st, name);
    if k < |st| then Some(st[k]) else None
  }

  function Get(st: Store, name: string): Option<string> {
    if Lookup(st, name).Some? then Some(Lookup(st, name).value.value) else None
  }

  lemma LookupPut(st: Store, name: string, value: string, other: string)
    requires NamesDiffer(st)
    ensures (var after := Put(st, name, value, false, false);
             && NamesDiffer(after)
             && Lookup(after, name) == Some(Record(name, value, false, !Writable(st, name)))
             && (other != name ==> Lookup(after, other) == Lookup(st, other)))
  {
    var after := Put(st, name, value, false, false);
    AfterPut(st, name, value, false, false);
    if other != name {
      var k := Find(st, other);
      if k < |st| {
        FindIs(after, other, k);
      } else {
        assert forall j :: 0 <= j < |after| ==> after[j].name != other;
      }
    }
  }

  lemma WithoutIs(st: Store, k: nat)
    requires k < |st| && NamesDiffer(st)
    ensures (var after := Without(st, k);
             && |after| == |st| - 1 && NamesDiffer(after)
             && forall j :: 0 <= j < |after| ==> after[j] == st[if j < k then j else j + 1])
  {
  }

  lemma LookupWithout(st: Store, k: nat, other: string)
    requires k < |st| && NamesDiffer(st)
    ensures Lookup(Without(st, k), other) == if other == st[k].name then None else Lookup(st, other)
  {
    hide NamesDiffer, Without;
    WithoutIs(st, k);
    var after := Without(st, k);
    var f, g := Find(st, other), Find(after, other);
    if other == st[k].name {
      FindIs(st, other, k);
      OnlyOne(st, k);
      assert forall j :: 0 <= j < |after| ==> after[j].name != other;
    } else if f < |st| {
      FindIs(after, other, if f < k then f else f - 1);
    } else {
      assert forall j :: 0 <= j < |after| ==> after[j].name != other;
    }
  }

  lemma OnlyOne(st: Store, k: nat)
    requires k < |st| && NamesDiffer(st)
    ensures forall j :: 0 <= j < |st| && st[j].name == st[k].name ==> j == k
  {
  }

  lemma LookupUnset(st: Store, name: string, other: string)
    requires NamesDiffer(st) && Writable(st, name)
    ensures (var after := UnsetVar(st, name);
             && NamesDiffer(after) && Lookup(after, name) == None
             && (other != name ==> Lookup(after, other) == Lookup(st, other)))
  {
    hide NamesDiffer, Without;
    var k := Find(st, name);
    if k < |st| {
      WithoutIs(st, k);
      LookupWithout(st, k, name);
      LookupWithout(st, k, other);
    }
  }

  /** The variables `getopts` writes are three different ones, and none is read-only. */
  ghost predicate Free(st: Store, varname: string) {
    && NamesDiffer(st) && IsName(varname) && varname != "OPTIND" && varname != "OPTARG"
    && Writable(st, varname) && Writable(st, "OPTIND") && Writable(st, "OPTARG")
  }

  predicate Shows(st: Store, varname: string, e: Event, optind: nat) {
    && Get(st, varname) == Some([e.name]) && Get(st, "OPTARG") == e.optarg
    && Get(st, "OPTIND") == Some(Decimal(optind))
  }

  lemma RecordShows(st: Store, varname: string, f: Found)
    requires Free(st, varname)
    ensures (var (after, ok) := RecordEvent(st, varname, f);
             ok && Free(after, varname) && Shows(after, varname, f.event, f.optind))
  {
    hide Put, Find, IsName, UnsetVar, Decimal, NamesDiffer;
    NamesAreNames();
    LookupPut(st, varname, [f.event.name], "OPTARG");
    LookupPut(st, varname, [f.event.name], "OPTIND");
    var s1 := Put(st, varname, [f.event.name], false, false);
    WritableLookup(st, s1);
    var s2 := if f.event.optarg.Some? then Put(s1, "OPTARG", f.event.optarg.value, false, false)
              else UnsetVar(s1, "OPTARG");
    if f.event.optarg.Some? {
      LookupPut(s1, "OPTARG", f.event.optarg.value, varname);
      LookupPut(s1, "OPTARG", f.event.optarg.value, "OPTIND");
    } else {
      LookupUnset(s1, "OPTARG", varname);
      LookupUnset(s1, "OPTARG", "OPTIND");
    }
    WritableLookup(s1, s2);
    LookupPut(s2, "OPTIND", Decimal(f.optind), varname);
    LookupPut(s2, "OPTIND", Decimal(f.optind), "OPTARG");
    WritableLookup(s2, Put(s2, "OPTIND", Decimal(f.optind), false, false));
  }

  lemma NamesAreNames()
    ensures IsName("OPTARG") && IsName("OPTIND") && "OPTARG" != "OPTIND"
  {
    assert "OPTARG"[3] != "OPTIND"[3];
  }

  lemma WritableLookup(st: Store, after: Store)
    ensures forall name :: Writable(st, name) <==> Lookup(st, name).Some? ==> !Lookup(st, name).value.readonly
    ensures forall name :: Writable(after, name) <==> Lookup(after, name).Some? ==> !Lookup(after, name).value.readonly
  {
  }

  /** The position survives being kept as text. */
  lemma OptindReadsBack(st: Store, n: nat)
    requires Get(st, "OPTIND") == Some(Decimal(n)) && 1 <= n <= ULONG_MAX
    ensures ReadOptind(st) == n
  {
    var s := Decimal(n);
    SpaceEndIs(s, 0, 0);
    DigitEndIs(s, 0, |s|, 10);
    assert s[0..0 + |s|] == s;
    DecimalMagnitude(n, s, 0);
  }

  // ---------- repeated calls ----------

  /** The state is at a position of the scan of these arguments. */
  ghost predicate IsAt(g: State, optstring: string, varname: string, args: seq<string>, optind: nat, next: nat) {
    && Free(g.vars, varname) && StartAt(g, optstring) == (optind, next)
    && 1 <= optind <= |args| + 1 && InRange(args, optind, next)
  }

  /** Calling again and again gives these events, one each call with status 0, and then status 1, with
      OPTIND at the first operand. */
  ghost predicate Enumerates(g: State, optstring: string, varname: string, args: seq<string>, p: Parsed)
    decreases |p.events|
  {
    Callable(g, optstring, args) &&
    var (after, rc) := Call(g, optstring, varname, args);
    if p.events == [] then
      && rc == 1 && |p.operands| <= |args|
      && Shows(after.vars, varname, Event('?', None), |args| - |p.operands| + 1)
      && p.operands == args[|args| - |p.operands|..]
    else
      && rc == 0
      && (exists optind :: Shows(after.vars, varname, p.events[0], optind))
      && Enumerates(after, optstring, varname, args, Parsed(p.events[1..], p.operands))
  }

  lemma CallMoves(g: State, optstring: string, varname: string, args: seq<string>, optind: nat, next: nat)
    requires IsAt(g, optstring, varname, args, optind, next) && |args| < ULONG_MAX
    ensures Callable(g, optstring, args)
    ensures (var f := Scan(optstring, args, optind, next);
             var (after, rc) := Call(g, optstring, varname, args);
             && rc == f.rc && Shows(after.vars, varname, f.event, f.optind)
             && IsAt(after, optstring, varname, args, f.optind, f.next))
  {
    hide Scan, RecordEvent, ReadOptind, Remaining, Decimal, Get, Find, IsName, NamesDiffer;
    ScanIsFirst(optstring, args, optind, next);
    var f := Scan(optstring, args, optind, next);
    RecordShows(g.vars, varname, f);
    OptindReadsBack(RecordEvent(g.vars, varname, f).0, f.optind);
  }

  lemma {:induction false} RunFrom(g: State, optstring: string, varname: string, args: seq<string>,
                                   optind: nat, next: nat)
    requires IsAt(g, optstring, varname, args, optind, next) && |args| < ULONG_MAX
    ensures Enumerates(g, optstring, varname, args, Remaining(optstring, args, optind, next))
    decreases |Remaining(optstring, args, optind, next).events|
  {
    hide Scan, Remaining, IsAt, Shows, Call, Callable;
    PositionIn(g, optstring, varname, args, optind, next);
    CallMoves(g, optstring, varname, args, optind, next);
    ScanIsFirst(optstring, args, optind, next);
    var f := Scan(optstring, args, optind, next);
    var left := Remaining(optstring, args, optind, next);
    var after := Call(g, optstring, varname, args).0;
    if f.rc == 1 {
      assert left.events == [] && |left.operands| == |args| - f.optind + 1;
    } else {
      var rest := Remaining(optstring, args, f.optind, f.next);
      assert left.events == [f.event] + rest.events && left.events[1..] == rest.events;
      assert Parsed(left.events[1..], left.operands) == rest;
      RunFrom(after, optstring, varname, args, f.optind, f.next);
      assert Shows(after.vars, varname, left.events[0], f.optind);
      assert Call(g, optstring, varname, args).1 == 0;
      assert Enumerates(after, optstring, varname, args, rest);
    }
  }

  lemma PositionIn(g: State, optstring: string, varname: string, args: seq<string>, optind: nat, next: nat)
    requires IsAt(g, optstring, varname, args, optind, next)
    ensures optind >= 1 && optind <= |args| + 1 && InRange(args, optind, next)
  {
  }

  /** Repeated calls from a fresh position enumerate exactly the options of the argument list, and stop. */
  lemma CallsEnumerateOptions(g: State, optstring: string, varname: string, args: seq<string>)
    requires Free(g.vars, varname) && StartAt(g, optstring) == (1, 0) && |args| < ULONG_MAX
    ensures Enumerates(g, optstring, varname, args, Options(optstring, args))
  {
    hide Enumerates, Options;
    RunFrom(g, optstring, varname, args, 1, 0);
    assert args[0..] == args;
    if args == [] {
      assert args == [];
    }
  }
}
