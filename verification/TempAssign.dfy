/** Assignments in front of a command: set for the command, undone behind it. */
module TempAssign {
  import opened Common
  import opened Text
  import opened Symbols
  import opened Vars

  // ---------- which words are assignments ----------

  /** A valid name and a `=` behind it. */
  predicate AssignmentWord(word: string) {
    exists e :: 0 < e < |word| && word[e] == '=' && IsName(word[..e])
  }

  method IsAssignmentWord(word: string) returns (b: bool)
    ensures b <==> AssignmentWord(word)
  {
    if word == "" || !IsNameStart(word[0]) {
      NotBefore(word, 0);
      return false;
    }
    var i := 1;
    while i < |word| && word[i] != '='
      invariant 1 <= i <= |word| && IsName(word[..i])
    {
      if !IsNameChar(word[i]) {
        NotBefore(word, i);
        return false;
      }
      i := i + 1;
    }
    if i == |word| {
      NotBefore(word, i);
    }
    return i < |word|;
  }

  /** No `=` that ends a name comes before, and none behind a character that is not of a name. */
  lemma NotBefore(word: string, i: nat)
    requires i <= |word| && forall k :: 0 <= k < i ==> IsNameChar(word[k])
    requires i < |word| ==> if i == 0 then !IsNameStart(word[0]) else !IsNameChar(word[i]) && word[i] != '='
    ensures !AssignmentWord(word)
  {
    forall e | 0 < e < |word| && word[e] == '=' ensures !IsName(word[..e]) {
      assert !IsNameChar('=');
      assert i < e;
      assert word[..e][i] == word[i] && word[..e][0] == word[0];
    }
  }

  /** How many words in front of a command are assignments. */
  method CountAssignments(words: seq<string>) returns (count: nat)
    ensures count <= |words| && forall k :: 0 <= k < count ==> AssignmentWord(words[k])
    ensures count < |words| ==> !AssignmentWord(words[count])
  {
    hide AssignmentWord;
    count := 0;
    while count < |words|
      invariant 0 <= count <= |words| && forall k :: 0 <= k < count ==> AssignmentWord(words[k])
    {
      var b := IsAssignmentWord(words[count]);
      if !b {
        return;
      }
      count := count + 1;
    }
  }

  /** Splits a word at its first `=`; a word without a name is no assignment. */
  function SplitAssignment(word: string, i: nat): Option<(string, string)>
    requires i <= |word|
    decreases |word| - i
  {
    if i == |word| then None
    else if word[i] != '=' then SplitAssignment(word, i + 1)
    else if i == 0 then None
    else Some((word[..i], word[i + 1..]))
  }

  datatype Saved = Saved(name: string, value: string, existed: bool, exported: bool)

  function SaveOf(st: Store, name: string): Saved {
    var k := Find(st, name);
    if k < |st| then Saved(name, st[k].value, true, st[k].exported) else Saved(name, "", false, false)
  }

  predicate StorageName(name: string) {
    name == "0" || IsName(name)
  }

  predicate Refused(st: Store, name: string) {
    !StorageName(name) || !Writable(st, name)
  }

  datatype Applied = Applied(ok: bool, store: Store, saved: seq<Saved>)

  /** What the assignments before a command do to the store; a refused one undoes those before it. */
  function Apply(st: Store, words: seq<string>, saved: seq<Saved>): Applied
    decreases |words|
  {
    if words == [] then Applied(true, st, saved)
    else
      var split := SplitAssignment(words[0], 0);
      if split.None? then Apply(st, words[1..], saved)
      else
        var (name, value) := split.value;
        if Refused(st, name) then Applied(false, Restore(st, saved), [])
        else Apply(Put(st, name, value, true, false), words[1..], saved + [SaveOf(st, name)])
  }

  function RestoreOne(st: Store, r: Saved): Store {
    if r.existed then
      if StorageName(r.name) then Put(st, r.name, r.value, r.exported, false) else st
    else
      var k := Find(st, r.name);
      if IsName(r.name) && k < |st| && !st[k].readonly then Without(st, k) else st
  }

  /** Undoes the saved assignments, the last one first. */
  function Restore(st: Store, saved: seq<Saved>): Store
    decreases |saved|
  {
    if saved == [] then st
    else Restore(RestoreOne(st, saved[|saved| - 1]), saved[..|saved| - 1])
  }

  method RestoreVariable(v: Variables, r: Saved)
    requires v.Valid()
    modifies v`mru, v`execEnvp, v`execEnvpDirty, v.table, v.table.list
    ensures v.Valid() && v.View() == RestoreOne(old(v.View()), r)
    ensures forall j :: 0 <= j < |v.table.list| ==> v.table.list[j] in old(v.table.list) || fresh(v.table.list[j])
  {
    hide Put, IsName, Find, Symbols.Hash, Variables.Valid, Variables.View;
    if r.existed {
      var rc := v.SetWithMode(r.name, r.value, false, r.exported);
    } else {
      var rc := v.Unset(r.name);
    }
  }

  method RestoreTemporary(v: Variables, saved: seq<Saved>)
    requires v.Valid()
    modifies v`mru, v`execEnvp, v`execEnvpDirty, v.table, v.table.list
    ensures v.Valid() && v.View() == Restore(old(v.View()), saved)
    ensures forall j :: 0 <= j < |v.table.list| ==> v.table.list[j] in old(v.table.list) || fresh(v.table.list[j])
  {
    hide Restore, RestoreOne, Table.Valid, VarOk, Variables.View;
    var i := |saved|;
    RestoreEnds(v.View(), saved);
    while i > 0
      invariant 0 <= i <= |saved| && v.Valid()
      invariant Restore(v.View(), saved[..i]) == Restore(old(v.View()), saved)
      invariant forall j :: 0 <= j < |v.table.list| ==> v.table.list[j] in old(v.table.list) || fresh(v.table.list[j])
    {
      RestoreTurn(v.View(), saved, i);
      RestoreVariable(v, saved[i - 1]);
      i := i - 1;
    }
    RestoreEnds(v.View(), saved);
  }

  lemma RestoreEnds(st: Store, saved: seq<Saved>)
    ensures saved[..|saved|] == saved && Restore(st, saved[..0]) == st
  {
  }

  lemma RestoreTurn(st: Store, saved: seq<Saved>, i: nat)
    requires 0 < i <= |saved|
    ensures Restore(st, saved[..i]) == Restore(RestoreOne(st, saved[i - 1]), saved[..i - 1])
    ensures saved[..|saved|] == saved
  {
    assert saved[..i][..i - 1] == saved[..i - 1];
  }

  /** `exit` is the status with which the shell is told to exit, if it is. */
  method ApplyTemporary(v: Variables, words: seq<string>, interactive: bool)
    returns (rc: int, saved: seq<Saved>, exit: Option<int>)
    requires v.Valid()
    modifies v`mru, v`execEnvp, v`execEnvpDirty, v.table, v.table.list
    ensures v.Valid()
    ensures (var r := Apply(old(v.View()), words, []);
             && v.View() == r.store && saved == r.saved && rc == (if r.ok then 0 else 1)
             && exit == if r.ok || interactive then None else Some(1))
  {
    hide Put, IsName, Find, Restore, SplitAssignment, Symbols.Hash, Table.Valid, VarOk, Variables.View, Writable;
    saved, exit := [], None;
    for i := 0 to |words|
      invariant v.Valid()
      invariant Apply(v.View(), words[i..], saved) == Apply(old(v.View()), words, [])
      invariant forall j :: 0 <= j < |v.table.list| ==> v.table.list[j] in old(v.table.list) || fresh(v.table.list[j])
    {
      assert words[i..][1..] == words[i + 1..];
      var split := SplitAssignment(words[i], 0);
      if split.Some? {
        var (name, value) := split.value;
        var r := SaveVariable(v, name);
        rc := v.SetWithMode(name, value, true, true);
        if rc != 0 {
          if !interactive {
            exit := Some(1);
          }
          RestoreTemporary(v, saved);
          return 1, [], exit;
        }
        saved := saved + [r];
      }
    }
    rc := 0;
  }

  method SaveVariable(v: Variables, name: string) returns (r: Saved)
    requires v.Valid()
    modifies v`mru
    ensures v.Valid() && v.View() == old(v.View()) && r == SaveOf(v.View(), name)
  {
    hide Find, Symbols.Hash, Symbols.Table.Valid;
    var entry := v.LookupEntry(name);
    r := if entry != null then Saved(name, entry.data.value, true, entry.data.exported)
         else Saved(name, "", false, false);
  }

  // ---------- undoing is exact ----------

  lemma RestoreConcat(st: Store, first: seq<Saved>, last: Saved)
    ensures Restore(st, first + [last]) == Restore(RestoreOne(st, last), first)
  {
    assert (first + [last])[..|first|] == first;
  }

  lemma UndoesOne(st: Store, name: string, value: string)
    requires IsName(name) && Writable(st, name)
    ensures RestoreOne(Put(st, name, value, true, false), SaveOf(st, name)) == st
  {
    hide IsName;
    AfterPut(st, name, value, true, false);
    var k := Find(st, name);
    var after := Put(st, name, value, true, false);
    if k < |st| {
      assert Put(after, name, st[k].value, st[k].exported, false) == st;
    } else {
      assert Without(after, k) == st;
    }
  }

  lemma {:induction false} SplitFinds(word: string, i: nat, e: nat)
    requires i <= e < |word| && 0 < e && word[e] == '='
    requires forall k :: i <= k < e ==> word[k] != '='
    ensures SplitAssignment(word, i) == Some((word[..e], word[e + 1..]))
    decreases e - i
  {
    if i < e {
      SplitFinds(word, i + 1, e);
    }
  }

  lemma AssignmentSplits(word: string)
    requires AssignmentWord(word)
    ensures SplitAssignment(word, 0).Some? && IsName(SplitAssignment(word, 0).value.0)
  {
    hide SplitAssignment;
    var e :| 0 < e < |word| && word[e] == '=' && IsName(word[..e]);
    forall k | 0 <= k < e ensures word[k] != '=' {
      assert word[..e][k] == word[k];
    }
    SplitFinds(word, 0, e);
  }

  /** The variable of that name, if there is one. */
  function Found(st: Store, name: string): Option<Record> {
    var k := Find(st, name);
    if k < |st| then Some(st[k]) else None
  }

  lemma FoundAfterPut(st: Store, name: string, value: string, other: string)
    requires Writable(st, name)
    ensures (var after := Put(st, name, value, true, false);
             && Found(after, name) == Some(Record(name, value, true, false))
             && (other != name ==> Found(after, other) == Found(st, other)))
  {
    hide Put;
    AfterPut(st, name, value, true, false);
    var after := Put(st, name, value, true, false);
    var k := Find(st, other);
    if other != name {
      if k < |st| {
        FirstIs(after, other, k);
      } else {
        assert forall j :: 0 <= j < |after| ==> after[j].name != other;
      }
    }
  }

  lemma WritableAfterPut(st: Store, name: string, value: string, other: string)
    requires Writable(st, name)
    ensures Writable(Put(st, name, value, true, false), other) <==> Writable(st, other)
  {
    hide Put;
    FoundAfterPut(st, name, value, other);
  }

  /** All variables that the words assign may be written. */
  predicate AllWritable(st: Store, words: seq<string>) {
    forall w :: w in words && SplitAssignment(w, 0).Some? ==> Writable(st, SplitAssignment(w, 0).value.0)
  }

  lemma AllWritableStep(st: Store, words: seq<string>)
    requires words != [] && SplitAssignment(words[0], 0).Some?
    ensures (var (name, value) := SplitAssignment(words[0], 0).value;
             AllWritable(st, words) <==>
               Writable(st, name) && AllWritable(Put(st, name, value, true, false), words[1..]))
  {
    hide Put, Writable, SplitAssignment;
    var (name, value) := SplitAssignment(words[0], 0).value;
    var after := Put(st, name, value, true, false);
    if Writable(st, name) {
      forall other: string ensures Writable(after, other) <==> Writable(st, other) {
        WritableAfterPut(st, name, value, other);
      }
      assert forall w :: w in words <==> w == words[0] || w in words[1..];
    }
  }

  lemma {:induction false} ApplyUndone(st: Store, words: seq<string>, saved: seq<Saved>)
    requires forall w :: w in words ==> AssignmentWord(w)
    ensures (var r := Apply(st, words, saved);
             && (r.ok <==> AllWritable(st, words))
             && Restore(r.store, if r.ok then r.saved else []) == Restore(st, saved))
    decreases |words|
  {
    hide Put, AssignmentWord, SplitAssignment, Restore, RestoreOne, SaveOf, Writable, AllWritable, IsName;
    if words == [] {
      NoneToWrite(st);
    } else {
      AssignmentSplits(words[0]);
      AllWritableStep(st, words);
      var (name, value) := SplitAssignment(words[0], 0).value;
      if Refused(st, name) {
        NothingSaved(Restore(st, saved));
      } else {
        ApplyUndone(Put(st, name, value, true, false), words[1..], saved + [SaveOf(st, name)]);
        RestoreConcat(Put(st, name, value, true, false), saved, SaveOf(st, name));
        UndoesOne(st, name, value);
      }
    }
  }

  lemma NoneToWrite(st: Store)
    ensures AllWritable(st, [])
  {
  }

  lemma NothingSaved(st: Store)
    ensures Restore(st, []) == st
  {
  }

  /** Setting the assignments of a command and undoing them gives back the store as it was (values, export
      and read-only marks, and order, whatever names are repeated).  They are refused if and only if one of
      the variables is read-only, and then the ones before have been undone. */
  lemma TemporaryIsTemporary(st: Store, words: seq<string>)
    requires forall w :: w in words ==> AssignmentWord(w)
    ensures (var r := Apply(st, words, []);
             && (r.ok <==> AllWritable(st, words))
             && (if r.ok then Restore(r.store, r.saved) else r.store) == st)
  {
    hide Apply, AllWritable, Restore;
    ApplyUndone(st, words, []);
    NothingSaved(Apply(st, words, []).store);
    NothingSaved(st);
  }

  // ---------- what the command sees ----------

  /** The word gives the name a value: the name, and the first `=` of the word behind it. */
  predicate Assigns(word: string, name: string) {
    name + "=" <= word && '=' !in name
  }

  lemma SplitAssigns(word: string, name: string)
    requires AssignmentWord(word)
    ensures SplitAssignment(word, 0).Some?
    ensures (var (n, value) := SplitAssignment(word, 0).value;
             && (Assigns(word, name) <==> n == name)
             && word == n + "=" + value)
  {
    hide SplitAssignment;
    var e :| 0 < e < |word| && word[e] == '=' && IsName(word[..e]);
    forall k | 0 <= k < e ensures word[k] != '=' {
      assert word[..e][k] == word[k];
    }
    SplitFinds(word, 0, e);
    if Assigns(word, name) {
      assert word[|name|] == '=' && forall k :: 0 <= k < |name| ==> word[k] == name[k];
    }
  }

  /** The last of the words that assign the name. */
  predicate LastAssigns(words: seq<string>, name: string, k: nat) {
    k < |words| && Assigns(words[k], name) && forall j :: k < j < |words| ==> !Assigns(words[j], name)
  }

  lemma LastAssignsOfRest(words: seq<string>, name: string, k: nat)
    requires LastAssigns(words, name, k) && 0 < k
    ensures LastAssigns(words[1..], name, k - 1)
  {
    hide Assigns;
  }

  lemma {:induction false} AppliedFinds(st: Store, words: seq<string>, saved: seq<Saved>, name: string)
    requires (forall w :: w in words ==> AssignmentWord(w)) && Apply(st, words, saved).ok
    ensures (var after := Apply(st, words, saved).store;
             && (forall k: nat :: LastAssigns(words, name, k) ==>
                   && |name| < |words[k]|
                   && Found(after, name) == Some(Record(name, words[k][|name| + 1..], true, false)))
             && ((forall w :: w in words ==> !Assigns(w, name)) ==> Found(after, name) == Found(st, name)))
    decreases |words|
  {
    hide Put, AssignmentWord, SplitAssignment, Restore, SaveOf, Writable, Found;
    if words != [] {
      SplitAssigns(words[0], name);
      var (n, value) := SplitAssignment(words[0], 0).value;
      var mid := Put(st, n, value, true, false);
      FoundAfterPut(st, n, value, name);
      AppliedFinds(mid, words[1..], saved + [SaveOf(st, n)], name);
      forall k: nat | LastAssigns(words, name, k)
        ensures |name| < |words[k]|
        ensures Found(Apply(st, words, saved).store, name) == Some(Record(name, words[k][|name| + 1..], true, false))
      {
        if k > 0 {
          LastAssignsOfRest(words, name, k);
        } else {
          assert forall w :: w in words[1..] ==> !Assigns(w, name);
        }
      }
    }
  }

  /** What a command sees of the words in front of it, if they are not refused.  A variable that they assign
      holds what stands behind the `=` of the last word for it, and that word is a line of the environment.
      Every other variable is what it was. */
  lemma CommandSees(st: Store, words: seq<string>, name: string)
    requires (forall w :: w in words ==> AssignmentWord(w)) && AllWritable(st, words)
    ensures (var after := Apply(st, words, []).store;
             && (forall k: nat :: LastAssigns(words, name, k) ==>
                   && words[k] == name + "=" + words[k][|name + "="|..]
                   && Found(after, name) == Some(Record(name, words[k][|name + "="|..], true, false))
                   && (HasLine(Record(name, "", true, false)) ==> words[k] in Environment(after)))
             && ((forall w :: w in words ==> !Assigns(w, name)) ==> Found(after, name) == Found(st, name)))
  {
    hide Apply, AllWritable, Environment, AssignmentWord;
    ApplyUndone(st, words, []);
    AppliedFinds(st, words, [], name);
    var after := Apply(st, words, []).store;
    forall k: nat | LastAssigns(words, name, k)
      ensures words[k] == name + "=" + words[k][|name + "="|..]
      ensures HasLine(Record(name, "", true, false)) ==> words[k] in Environment(after)
    {
      var value := words[k][|name| + 1..];
      if HasLine(Record(name, "", true, false)) {
        assert after[Find(after, name)] == Record(name, value, true, false);
        LineOfExported(after, Find(after, name));
      }
    }
  }
}
