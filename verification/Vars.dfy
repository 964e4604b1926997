/** The variable store: the name table with three caches on top of it, each of which must agree with the
    plain list of variables it stands for. */
module Vars {
  import opened CLong
  import opened Common
  import opened Text
  import opened TextBases
  import opened Symbols

  /** One variable as everybody else sees it. */
  datatype Record = Record(name: string, value: string, exported: bool, readonly: bool)

  type Store = seq<Record>

  /** One variable as it is kept: with its parsed value and its line of the environment. */
  datatype Var = Var(value: string, exported: bool, readonly: bool, longValid: bool, longCache: Long,
                     exportText: Option<string>)

  // ---------- the plain store ----------

  /** The place of a name, or the number of variables if it is not set. */
  function Find(st: Store, name: string): (k: nat)
    ensures k <= |st|
    ensures k < |st| ==> st[k].name == name
    ensures forall j :: 0 <= j < k ==> st[j].name != name
  {
    if st == [] || st[0].name == name then 0 else 1 + Find(st[1..], name)
  }

  ghost predicate NamesDiffer(st: Store) {
    forall i, j :: 0 <= i < j < |st| ==> st[i].name != st[j].name
  }

  lemma {:induction false} FindIs(st: Store, name: string, k: nat)
    requires k < |st| && st[k].name == name && NamesDiffer(st)
    ensures Find(st, name) == k
  {
    if Find(st, name) < k {
      assert false;
    }
  }

  /** Sets a variable in its place, or puts it at the end. */
  function Put(st: Store, name: string, value: string, exported: bool, markReadonly: bool): Store {
    var k := Find(st, name);
    if k < |st| then st[k := Record(name, value, exported, st[k].readonly || markReadonly)]
    else st + [Record(name, value, exported, markReadonly)]
  }

  predicate Writable(st: Store, name: string) {
    var k := Find(st, name);
    k == |st| || !st[k].readonly
  }

  function Exported(st: Store, name: string): bool {
    var k := Find(st, name);
    k < |st| && st[k].exported
  }

  predicate ProcessMarker(name: string) {
    name in {"POSISH_PARENT_INTERACTIVE", "POSISH_TRACE", "POSISH_LINENO_BASE"}
  }

  function ExportText(name: string, value: string, exported: bool): Option<string> {
    if exported && !ProcessMarker(name) then Some(name + "=" + value) else None
  }

  /** The environment a program is started with. */
  function Environment(st: Store): seq<string> {
    if st == [] then []
    else
      var text := ExportText(st[0].name, st[0].value, st[0].exported);
      (if text.Some? then [text.value] else []) + Environment(st[1..])
  }

  /** What reading a variable as a number gives: unset or empty is no number, other text counts as 0. */
  function NumberOf(st: Store, name: string): Option<Long> {
    var k := Find(st, name);
    if k == |st| || st[k].value == "" then None
    else if ParseLong(st[k].value).Some? then ParseLong(st[k].value)
    else Some(0)
  }

  // ---------- what is kept about one variable ----------

  predicate CacheOk(value: string, longValid: bool, longCache: Long) {
    if longValid then ParseLong(value) == Some(longCache) else ParseLong(value).None?
  }

  predicate VarOk(name: string, v: Var) {
    CacheOk(v.value, v.longValid, v.longCache) && v.exportText == ExportText(name, v.value, v.exported)
  }

  function RecordOf(name: string, v: Var): Record {
    Record(name, v.value, v.exported, v.readonly)
  }

  method ReplaceValue(v: Var, value: string) returns (r: Var)
    ensures r.value == value && CacheOk(r.value, r.longValid, r.longCache)
    ensures r.exported == v.exported && r.readonly == v.readonly && r.exportText == v.exportText
  {
    hide Strtol;
    var parsed := ParseLong(value);
    r := v.(value := value, longValid := parsed.Some?, longCache := if parsed.Some? then parsed.value else 0);
  }

  method ReplaceValueLong(v: Var, value: Long) returns (r: Var)
    ensures r.value == LongText(value) && CacheOk(r.value, r.longValid, r.longCache)
    ensures r.exported == v.exported && r.readonly == v.readonly && r.exportText == v.exportText
  {
    hide ParseLong, LongText;
    ParseFormatted(value);
    r := v.(value := LongText(value), longValid := true, longCache := value);
  }

  class Variables {
    const table: Table<Var>
    /** The entry found last. */
    var mru: Node?<Var>
    var execEnvp: Option<seq<string>>
    var execEnvpDirty: bool
    var allexport: bool

    ghost function View(): (st: Store)
      reads table, table.list
      ensures |st| == |table.list|
      ensures forall k :: 0 <= k < |st| ==> st[k] == RecordOf(table.list[k].name, table.list[k].data)
    {
      seq(|table.list|, k requires 0 <= k < |table.list| reads table, table.list =>
        RecordOf(table.list[k].name, table.list[k].data))
    }

    /** Everything but the environment cache. */
    ghost predicate EntriesOk()
      reads this`mru, table, table.list
    {
      && table.Valid()
      && (mru != null ==> mru in table.list)
      && forall k :: 0 <= k < |table.list| ==> VarOk(table.list[k].name, table.list[k].data)
    }

    ghost predicate Valid()
      reads this, table, table.list
    {
      EntriesOk() && (!execEnvpDirty && execEnvp.Some? ==> execEnvp.value == Environment(View()))
    }

    constructor (allexport: bool)
      ensures Valid() && View() == [] && fresh(table)
    {
      table := new Table<Var>();
      mru, execEnvp, execEnvpDirty, this.allexport := null, None, true, allexport;
    }

    lemma ViewNames()
      requires table.Valid()
      ensures NamesDiffer(View())
    {
    }

    /** Finds an entry, by the remembered one where the name is its name. */
    method LookupEntry(name: string) returns (entry: Node?<Var>)
      requires Valid()
      modifies this`mru
      ensures Valid() && View() == old(View())
      ensures (var k := Find(View(), name);
               if k < |View()| then entry == table.list[k] else entry == null)
    {
      hide VarOk, Environment, View, Find, Table.Valid;
      if mru != null && mru.name == name {
        entry := mru;
      } else {
        entry := table.Lookup(name);
        if entry == null {
          NoSuchName(name);
          return;
        }
        mru := entry;
      }
      FoundEntry(entry, name);
    }

    lemma NoSuchName(name: string)
      requires forall n :: n in table.list ==> n.name != name
      ensures Find(View(), name) == |View()|
    {
      forall k | 0 <= k < |View()| ensures View()[k].name != name {
        assert table.list[k] in table.list;
      }
    }

    lemma AllNamesDiffer(name: string)
      requires Find(View(), name) == |View()|
      ensures forall n :: n in table.list ==> n.name != name
    {
      forall n | n in table.list ensures n.name != name {
        var k :| 0 <= k < |table.list| && table.list[k] == n;
        assert View()[k].name == n.name;
      }
    }

    lemma FoundEntry(entry: Node<Var>, name: string)
      requires table.Valid() && entry in table.list && entry.name == name
      ensures Find(View(), name) < |View()| && table.list[Find(View(), name)] == entry
    {
      ViewNames();
      var k :| 0 <= k < |table.list| && table.list[k] == entry;
      FindIs(View(), name, k);
    }

    method MarkEnvironmentDirty()
      modifies this`execEnvp, this`execEnvpDirty
      ensures execEnvpDirty && execEnvp.None?
    {
      execEnvpDirty := true;
      execEnvp := None;
    }

    /** Changes one entry; the environment cache may now be out of date. */
    method Change(entry: Node<Var>, ghost k: nat, v: Var)
      requires EntriesOk() && k < |table.list| && table.list[k] == entry && VarOk(entry.name, v)
      modifies this`mru, entry
      ensures EntriesOk() && View() == old(View())[k := RecordOf(entry.name, v)]
    {
      hide VarOk, Table.Valid;
      TableNames();
      entry.data := v;
      mru := entry;
    }

    method AppendNew(name: string, value: string, exported: bool, readonly: bool)
      requires Valid() && Find(View(), name) == |View()|
      modifies this`mru, this`execEnvp, this`execEnvpDirty, table, table.list`bucketNext, table.list`iterNext
      ensures Valid() && View() == old(View()) + [Record(name, value, exported, readonly)]
      ensures forall j :: 0 <= j < |table.list| ==> table.list[j] in old(table.list) || fresh(table.list[j])
    {
      hide Symbols.Hash, ParseLong, Environment, ExportText, View, Find, CacheOk, Table.Valid, EntriesOk;
      AllNamesDiffer(name);
      var v := ReplaceValue(Var("", exported, readonly, false, 0, None), value);
      var node := new Node<Var>(name, v.(exportText := ExportText(name, value, exported)));
      AddNode(node);
      if exported {
        MarkEnvironmentDirty();
      } else {
        UnexportedAtEnd(old(View()), Record(name, value, exported, readonly));
      }
    }

    /** Puts a new entry at the end; the environment cache may now be out of date. */
    method AddNode(node: Node<Var>)
      requires EntriesOk() && VarOk(node.name, node.data) && node.hash == Symbols.Hash(node.name)
      requires forall n :: n in table.list ==> n.name != node.name
      modifies this`mru, table, table.list`bucketNext, table.list`iterNext, node`bucketNext, node`iterNext
      ensures EntriesOk() && View() == old(View()) + [RecordOf(node.name, node.data)]
      ensures table.list == old(table.list) + [node]
    {
      hide Symbols.Hash, VarOk, Table.Valid;
      table.Insert(node);
      mru := node;
    }

    method SyncExportText(name: string, v: Var) returns (r: Var)
      ensures r == v.(exportText := ExportText(name, v.value, v.exported))
    {
      if !v.exported || ProcessMarker(name) {
        r := v.(exportText := None);
      } else {
        r := v.(exportText := Some(name + "=" + v.value));
      }
    }

    /** Writes an entry back, and drops the environment cache if the entry shows or showed in it. */
    method Overwrite(entry: Node<Var>, v: Var, ghost k: nat)
      requires Valid() && k < |table.list| && table.list[k] == entry
      requires CacheOk(v.value, v.longValid, v.longCache)
      modifies this`mru, this`execEnvp, this`execEnvpDirty, entry
      ensures Valid() && View() == old(View())[k := RecordOf(entry.name, v)]
    {
      hide CacheOk, Environment, ExportText, View, VarOk, EntriesOk;
      var envChanged := entry.data.exported || v.exported;
      if !envChanged {
        UnexportedChange(View(), k, RecordOf(entry.name, v));
      }
      var synced := SyncExportText(entry.name, v);
      SyncedOk(entry.name, v);
      Change(entry, k, synced);
      if envChanged {
        MarkEnvironmentDirty();
      }
    }

    static lemma SyncedOk(name: string, v: Var)
      requires CacheOk(v.value, v.longValid, v.longCache)
      ensures VarOk(name, v.(exportText := ExportText(name, v.value, v.exported)))
    {
    }

    /** The common path of all assignments of text. */
    method StoreValue(name: string, value: string, checkReadonly: bool, exported: bool, markReadonly: bool)
      returns (rc: int)
      requires Valid()
      modifies this`mru, this`execEnvp, this`execEnvpDirty, table, table.list
      ensures Valid()
      ensures (var refused := checkReadonly && !Writable(old(View()), name);
               && rc == (if refused then 1 else 0)
               && View() == if refused then old(View()) else Put(old(View()), name, value, exported, markReadonly))
      ensures forall j :: 0 <= j < |table.list| ==> table.list[j] in old(table.list) || fresh(table.list[j])
    {
      hide CacheOk, Environment, ExportText, View, Find, Table.Valid, EntriesOk;
      var entry := LookupEntry(name);
      ghost var k := Find(View(), name);
      if entry != null {
        if checkReadonly && entry.data.readonly {
          return 1;
        }
        var v := ReplaceValue(entry.data, value);
        v := v.(exported := exported);
        if markReadonly {
          v := v.(readonly := true);
        }
        Overwrite(entry, v, k);
        return 0;
      }
      AppendNew(name, value, exported, markReadonly);
      return 0;
    }

    method SetWithMode(name: string, value: string, checkReadonly: bool, exported: bool) returns (rc: int)
      requires Valid()
      modifies this`mru, this`execEnvp, this`execEnvpDirty, table, table.list
      ensures Valid()
      ensures forall j :: 0 <= j < |table.list| ==> table.list[j] in old(table.list) || fresh(table.list[j])
      ensures (var refused := !(name == "0" || IsName(name)) || (checkReadonly && !Writable(old(View()), name));
               && rc == (if refused then 1 else 0)
               && View() == if refused then old(View()) else Put(old(View()), name, value, exported, false))
    {
      hide Put, Writable, Environment, View, Valid, IsName;
      if !(name == "0" || IsName(name)) {
        return 1;
      }
      rc := StoreValue(name, value, checkReadonly, exported, false);
    }

    /** Whether an assignment leaves the variable exported. */
    method ExportedAfter(name: string, entry: Node?<Var>) returns (exported: bool)
      ensures exported == ((entry != null && entry.data.exported) || name == "PATH" || allexport)
    {
      exported := if entry != null then entry.data.exported else false;
      if name == "PATH" {
        exported := true;
      }
      if allexport {
        exported := true;
      }
    }

    method SetAssignment(name: string, value: string, checkReadonly: bool) returns (rc: int)
      requires Valid()
      modifies this`mru, this`execEnvp, this`execEnvpDirty, table, table.list
      ensures Valid()
      ensures (var refused := !IsName(name) || (checkReadonly && !Writable(old(View()), name));
               var exported := Exported(old(View()), name) || name == "PATH" || allexport;
               && rc == (if refused then 1 else 0)
               && View() == if refused then old(View()) else Put(old(View()), name, value, exported, false))
    {
      hide Put, Writable, Environment, View, Find, EntriesOk, IsName, Valid;
      if !IsName(name) {
        return 1;
      }
      var entry := LookupEntry(name);
      var exported := ExportedAfter(name, entry);
      rc := StoreValue(name, value, checkReadonly, exported, false);
    }

    /** Assigns a number: the text is made from it, and it is remembered beside the text. */
    method SetAssignmentLong(name: string, value: Long, checkReadonly: bool) returns (rc: int)
      requires Valid()
      modifies this`mru, this`execEnvp, this`execEnvpDirty, table, table.list
      ensures Valid()
      ensures (var refused := !IsName(name) || (checkReadonly && !Writable(old(View()), name));
               var exported := Exported(old(View()), name) || name == "PATH" || allexport;
               && rc == (if refused then 1 else 0)
               && View() == if refused then old(View()) else Put(old(View()), name, LongText(value), exported, false))
    {
      hide CacheOk, Environment, View, Find, LongText, ExportText, VarOk, EntriesOk, IsName, ParseLong;
      if !IsName(name) {
        return 1;
      }
      var entry := LookupEntry(name);
      ghost var k := Find(View(), name);
      var exported := ExportedAfter(name, entry);
      if entry != null {
        if checkReadonly && entry.data.readonly {
          return 1;
        }
        var v := ReplaceValueLong(entry.data, value);
        Overwrite(entry, v.(exported := exported), k);
        return 0;
      }
      AppendNew(name, LongText(value), exported, false);
      return 0;
    }

    method MarkExported(name: string) returns (rc: int)
      requires Valid()
      modifies this`mru, this`execEnvp, this`execEnvpDirty, table, table.list
      ensures Valid() && rc == if IsName(name) then 0 else 1
      ensures (var k := Find(old(View()), name);
               View() == if rc != 0 then old(View())
                         else if k == |old(View())| then old(View()) + [Record(name, "", true, false)]
                         else old(View())[k := old(View())[k].(exported := true)])
    {
      hide CacheOk, Environment, View, Find, ExportText;
      if !IsName(name) {
        return 1;
      }
      var entry := LookupEntry(name);
      ghost var k := Find(View(), name);
      if entry == null {
        AppendNew(name, "", true, false);
        return 0;
      }
      EntryCached(k);
      Overwrite(entry, entry.data.(exported := true), k);
      return 0;
    }

    lemma EntryCached(k: nat)
      requires EntriesOk() && k < |table.list|
      ensures (var v := table.list[k].data;
               CacheOk(v.value, v.longValid, v.longCache) && VarOk(table.list[k].name, v))
      ensures View()[k] == RecordOf(table.list[k].name, table.list[k].data)
    {
    }

    method MarkReadonly(name: string, value: string, withValue: bool) returns (rc: int)
      requires Valid()
      modifies this`mru, this`execEnvp, this`execEnvpDirty, table, table.list
      ensures Valid()
      ensures (var st := old(View());
               var k := Find(st, name);
               if !IsName(name) || (withValue && !Writable(st, name)) then rc == 1 && View() == st
               else
                 && rc == 0
                 && View() == if withValue then Put(st, name, value, Exported(st, name), true)
                              else if k == |st| then st + [Record(name, "", false, true)]
                              else st[k := st[k].(readonly := true)])
    {
      hide CacheOk, Environment, View, Find, ExportText, Put, VarOk;
      if !IsName(name) {
        return 1;
      }
      var entry := LookupEntry(name);
      ghost var k := Find(View(), name);
      if withValue {
        var exported := if entry != null then entry.data.exported else false;
        rc := StoreValue(name, value, true, exported, true);
        return;
      }
      if entry == null {
        AppendNew(name, "", false, true);
        return 0;
      }
      EntryCached(k);
      MarkEntry(entry, k);
      return 0;
    }

    /** The read-only mark is in no cache, so none is dropped. */
    method MarkEntry(entry: Node<Var>, ghost k: nat)
      requires Valid() && k < |table.list| && table.list[k] == entry
      modifies this`mru, entry
      ensures Valid() && View() == old(View())[k := old(View())[k].(readonly := true)]
    {
      hide CacheOk, ExportText, View, Environment;
      EntryCached(k);
      SameEnvironment(View(), k);
      Change(entry, k, entry.data.(readonly := true));
    }

    method Unset(name: string) returns (rc: int)
      requires Valid()
      modifies this`mru, this`execEnvp, this`execEnvpDirty, table, table.list`bucketNext, table.list`iterNext
      ensures Valid()
      ensures (var st := old(View());
               var k := Find(st, name);
               if !IsName(name) || !Writable(st, name) then rc == 1 && View() == st
               else rc == 0 && View() == if k < |st| then Without(st, k) else st)
      ensures forall j :: 0 <= j < |table.list| ==> table.list[j] in old(table.list)
    {
      hide VarOk, Environment, View, Find, ExportText;
      if !IsName(name) {
        return 1;
      }
      var entry := LookupEntry(name);
      if entry == null {
        return 0;
      }
      if entry.data.readonly {
        return 1;
      }
      DropEntry(entry, Find(View(), name));
      return 0;
    }

    lemma TableNames()
      requires table.Valid()
      ensures NamesUnique(table.list)
    {
    }

    method DropEntry(entry: Node<Var>, ghost k: nat)
      requires Valid() && k < |table.list| && table.list[k] == entry
      modifies this`mru, this`execEnvp, this`execEnvpDirty, table, table.list`bucketNext, table.list`iterNext
      ensures Valid() && View() == Without(old(View()), k)
      ensures forall j :: 0 <= j < |table.list| ==> table.list[j] in old(table.list)
    {
      hide VarOk, Environment, View, Symbols.Hash, Table.Valid, EntriesOk, Without;
      var exported := entry.data.exported;
      EntryCached(k);
      UnexportedWithout(View(), k);
      OldOnly(table.list, k);
      TakeNode(entry, k);
      if exported {
        MarkEnvironmentDirty();
      }
    }

    /** Takes an entry out; the environment cache may now be out of date. */
    method TakeNode(entry: Node<Var>, ghost k: nat)
      requires EntriesOk() && k < |table.list| && table.list[k] == entry
      modifies this`mru, table, table.list`bucketNext, table.list`iterNext
      ensures EntriesOk() && View() == Without(old(View()), k) && table.list == Without(old(table.list), k)
    {
      hide VarOk, View, Symbols.Hash, Table.Valid, NamesUnique, Without;
      TableNames();
      ghost var list := table.list;
      ghost var st := View();
      var node := table.Remove(entry.name);
      mru := null;
      Removed(list, k, node, table.list);
      StillOk(list, k);
      ViewWithout(list, st, k);
    }

    static lemma OldOnly(list: seq<Node<Var>>, k: nat)
      requires k < |list|
      ensures (var ns := Without(list, k);
               forall j :: 0 <= j < |ns| ==> ns[j] in list)
    {
    }

    static lemma Removed(list: seq<Node<Var>>, k: nat, node: Node?<Var>, after: seq<Node<Var>>)
      requires NamesUnique(list) && k < |list|
      requires node == null ==> forall n :: n in list ==> n.name != list[k].name
      requires node != null ==> node.name == list[k].name
      requires node != null ==> exists i :: 0 <= i < |list| && list[i] == node && after == Without(list, i)
      ensures after == Without(list, k)
    {
      assert list[k] in list;
      var i :| 0 <= i < |list| && list[i] == node && after == Without(list, i);
    }

    lemma StillOk(list: seq<Node<Var>>, k: nat)
      requires k < |list| && table.list == Without(list, k)
      requires forall j :: 0 <= j < |list| ==> VarOk(list[j].name, list[j].data)
      ensures forall j :: 0 <= j < |table.list| ==> VarOk(table.list[j].name, table.list[j].data)
    {
      hide VarOk;
      var ns := Without(list, k);
      assert forall j :: 0 <= j < |ns| ==> ns[j] == list[if j < k then j else j + 1];
    }

    lemma ViewWithout(list: seq<Node<Var>>, st: Store, k: nat)
      requires |st| == |list| && k < |list| && table.list == Without(list, k)
      requires forall j :: 0 <= j < |list| ==> st[j] == RecordOf(list[j].name, list[j].data)
      ensures View() == Without(st, k)
    {
      var ns, rs := Without(list, k), Without(st, k);
      assert forall j :: 0 <= j < |ns| ==> ns[j] == list[if j < k then j else j + 1];
      assert forall j :: 0 <= j < |rs| ==> rs[j] == st[if j < k then j else j + 1];
    }

    method GetLong(name: string) returns (value: Option<Long>)
      requires Valid()
      modifies this`mru
      ensures Valid() && View() == old(View()) && value == NumberOf(View(), name)
    {
      hide Environment, View, Find, ExportText, ParseLong;
      var entry := LookupEntry(name);
      if entry == null {
        return None;
      }
      EntryCached(Find(View(), name));
      if entry.data.value == "" {
        return None;
      }
      if entry.data.longValid {
        return Some(entry.data.longCache);
      }
      return Some(0);
    }

    method BuildEnvp() returns (envp: seq<string>)
      requires Valid()
      modifies this`execEnvp, this`execEnvpDirty
      ensures Valid() && View() == old(View()) && envp == Environment(View())
    {
      hide CacheOk, View, Environment, Table.Valid;
      if !execEnvpDirty && execEnvp.Some? {
        return execEnvp.value;
      }
      envp := [];
      NoEnvironment(View());
      var node := table.iterHead;
      ghost var i := 0;
      table.IterAt(0);
      while node != null
        invariant 0 <= i <= |table.list| && node == Nth(table.list, i)
        invariant envp == Environment(View()[..i])
        decreases |table.list| - i
      {
        table.IterAt(i);
        EntryCached(i);
        EnvironmentNext(View(), i);
        var v := node.data;
        if v.exported && v.exportText.Some? {
          envp := envp + [v.exportText.value];
        }
        node := node.iterNext;
        i := i + 1;
      }
      assert View()[..|table.list|] == View();
      execEnvp := Some(envp);
      execEnvpDirty := false;
    }
  }

  lemma NoEnvironment(st: Store)
    ensures Environment(st[..0]) == []
  {
  }

  lemma EnvironmentNext(st: Store, i: nat)
    requires i < |st|
    ensures (var text := ExportText(st[i].name, st[i].value, st[i].exported);
             Environment(st[..i + 1]) == Environment(st[..i]) + if text.Some? then [text.value] else [])
  {
    EnvironmentConcat(st[..i], [st[i]]);
    assert st[..i + 1] == st[..i] + [st[i]];
    EnvironmentFirst(st[i], []);
  }

  lemma SameEnvironment(st: Store, k: nat)
    requires k < |st|
    ensures Environment(st[k := st[k].(readonly := true)]) == Environment(st)
  {
    hide Environment;
    var r := st[k].(readonly := true);
    assert st == st[..k] + ([st[k]] + st[k + 1..]);
    assert st[k := r] == st[..k] + ([r] + st[k + 1..]);
    EnvironmentConcat(st[..k], [st[k]] + st[k + 1..]);
    EnvironmentConcat(st[..k], [r] + st[k + 1..]);
    EnvironmentFirst(st[k], st[k + 1..]);
    EnvironmentFirst(r, st[k + 1..]);
  }

  lemma UnexportedWithout(st: Store, k: nat)
    requires k < |st|
    ensures !st[k].exported ==> Environment(Without(st, k)) == Environment(st)
  {
    hide Environment;
    assert st == st[..k] + ([st[k]] + st[k + 1..]);
    EnvironmentConcat(st[..k], [st[k]] + st[k + 1..]);
    EnvironmentFirst(st[k], st[k + 1..]);
    EnvironmentConcat(st[..k], st[k + 1..]);
  }

  lemma {:induction false} EnvironmentConcat(a: Store, b: Store)
    ensures Environment(a + b) == Environment(a) + Environment(b)
  {
    hide ExportText;
    if a == [] {
      assert a + b == b;
    } else {
      assert (a + b)[1..] == a[1..] + b;
      EnvironmentConcat(a[1..], b);
    }
  }

  lemma UnexportedAtEnd(st: Store, r: Record)
    requires !r.exported
    ensures Environment(st + [r]) == Environment(st)
  {
    EnvironmentConcat(st, [r]);
  }

  /** A variable that is not exported before or after leaves no trace in the environment. */
  lemma UnexportedChange(st: Store, k: nat, r: Record)
    requires k < |st| && !st[k].exported && !r.exported
    ensures Environment(st[k := r]) == Environment(st)
  {
    hide Environment;
    assert st == st[..k] + ([st[k]] + st[k + 1..]);
    assert st[k := r] == st[..k] + ([r] + st[k + 1..]);
    EnvironmentConcat(st[..k], [st[k]] + st[k + 1..]);
    EnvironmentConcat(st[..k], [r] + st[k + 1..]);
    EnvironmentFirst(st[k], st[k + 1..]);
    EnvironmentFirst(r, st[k + 1..]);
  }

  lemma EnvironmentFirst(r: Record, st: Store)
    ensures (var text := ExportText(r.name, r.value, r.exported);
             Environment([r] + st) == (if text.Some? then [text.value] else []) + Environment(st))
  {
    assert ([r] + st)[1..] == st;
  }

  // ---------- what the plain store promises ----------

  /** Every exported variable has a line of the environment, apart from the shell's notes to itself. */
  predicate HasLine(r: Record) {
    && r.exported && r.name != "POSISH_PARENT_INTERACTIVE" && r.name != "POSISH_TRACE"
    && r.name != "POSISH_LINENO_BASE"
  }

  function Line(r: Record): string {
    r.name + "=" + r.value
  }

  /** The lines are those of the variables at these places, in their order. */
  ghost predicate LinesOf(st: Store, lines: seq<string>, places: seq<nat>) {
    && |lines| == |places|
    && (forall i :: 0 <= i < |places| ==> places[i] < |st| && lines[i] == Line(st[places[i]]))
    && (forall i, j :: 0 <= i < j < |places| ==> places[i] < places[j])
    && (forall k :: 0 <= k < |st| && HasLine(st[k]) ==> k in places)
    && (forall k :: k in places ==> k < |st| && HasLine(st[k]))
  }

  /** What a program is started with: one line for each exported variable, its name, `=` and its value, in the
      order of the variables. */
  lemma {:induction false} EnvironmentLines(st: Store)
    ensures exists places :: LinesOf(st, Environment(st), places)
  {
    hide LinesOf, HasLine, Line, Environment, ExportText;
    if st == [] {
      NoLines();
    } else {
      var init, last := st[..|st| - 1], st[|st| - 1];
      EnvironmentLines(init);
      var places :| LinesOf(init, Environment(init), places);
      assert init + [last] == st && st[..|st|] == st;
      EnvironmentNext(st, |st| - 1);
      LineMeans(last);
      if HasLine(last) {
        OneMoreLine(init, last, Environment(init), places);
      } else {
        NoMoreLine(init, last, Environment(init), places);
        assert Environment(st) == Environment(init);
      }
    }
  }

  lemma NoLines()
    ensures LinesOf([], Environment([]), [])
  {
  }

  lemma LineMeans(r: Record)
    ensures ExportText(r.name, r.value, r.exported) == if HasLine(r) then Some(Line(r)) else None
  {
  }

  lemma OneMoreLine(st: Store, r: Record, lines: seq<string>, places: seq<nat>)
    requires LinesOf(st, lines, places) && HasLine(r)
    ensures LinesOf(st + [r], lines + [Line(r)], places + [|st|])
  {
    hide HasLine, Line;
    var ps := places + [|st|];
    assert forall k :: k in ps <==> k in places || k == |st|;
    forall i, j | 0 <= i < j < |ps| ensures ps[i] < ps[j] {
      assert places[i] in places;
    }
  }

  lemma NoMoreLine(st: Store, r: Record, lines: seq<string>, places: seq<nat>)
    requires LinesOf(st, lines, places) && !HasLine(r)
    ensures LinesOf(st + [r], lines, places)
  {
    hide HasLine, Line;
  }

  lemma LineOfExported(st: Store, k: nat)
    requires k < |st| && HasLine(st[k])
    ensures Line(st[k]) in Environment(st)
  {
    hide Environment, Line, HasLine;
    EnvironmentLines(st);
    var places :| LinesOf(st, Environment(st), places);
    var i :| 0 <= i < |places| && places[i] == k;
    assert Environment(st)[i] == Line(st[k]);
  }

  /** A number that is assigned is read back, whatever the variable held before. */
  lemma NumberReadsBack(st: Store, name: string, value: Long, exported: bool)
    ensures NumberOf(Put(st, name, LongText(value), exported, false), name) == Some(value)
  {
    hide ParseLong, LongText;
    ParseFormatted(value);
    AfterPut(st, name, LongText(value), exported, false);
  }

  /** What reading a variable as a number gives: nothing if it is unset or empty, 0 for a word, and the number that
      an octal or hexadecimal text stands for. */
  lemma NumbersAreRead(st: Store, name: string, n: Long, hex: bool, upper: bool, sign: string)
    requires n >= 0 && sign in ["", "+", "-"]
    ensures (var k := Find(st, name);
             && (k == |st| ==> NumberOf(st, name) == None)
             && (k < |st| && st[k].value == "" ==> NumberOf(st, name) == None)
             && (k < |st| && IsName(st[k].value) ==> NumberOf(st, name) == Some(0))
             && (k < |st| && st[k].value == sign + BasedText(n, hex, upper) ==>
                   NumberOf(st, name) == Some(if sign == "-" then -n else n)))
  {
    hide ParseLong, BasedText;
    BasesRead(n, hex, upper, sign);
    var k := Find(st, name);
    if k < |st| && IsName(st[k].value) {
      LettersAreNoNumber(st[k].value);
    }
  }

  /** An assignment keeps the variable's place, or takes the last one, and touches no other variable. */
  lemma AfterPut(st: Store, name: string, value: string, exported: bool, markReadonly: bool)
    ensures (var after := Put(st, name, value, exported, markReadonly);
             var k := Find(st, name);
             && Find(after, name) == k < |after|
             && after[k].value == value && after[k].exported == exported
             && (after[k].readonly <==> markReadonly || (k < |st| && st[k].readonly))
             && |after| == (if k < |st| then |st| else |st| + 1)
             && (forall j :: 0 <= j < |st| && j != k ==> after[j] == st[j]))
  {
    var after := Put(st, name, value, exported, markReadonly);
    var k := Find(st, name);
    FirstIs(after, name, k);
  }

  lemma {:induction false} FirstIs(st: Store, name: string, k: nat)
    requires k < |st| && st[k].name == name && forall j :: 0 <= j < k ==> st[j].name != name
    ensures Find(st, name) == k
  {
    if k > 0 {
      assert st[0].name != name;
      FirstIs(st[1..], name, k - 1);
    }
  }
}
