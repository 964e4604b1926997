/** The hashed name table: buckets for lookup beside a list in insertion order. */
module Symbols {

  const FIRST_BUCKETS: nat := 64

  /** FNV-1a over the bytes of a name, modulo 2^64. */
  function HashFrom(name: string, i: nat, hash: bv64): bv64
    requires i <= |name|
    decreases |name| - i
  {
    if i == |name| then hash
    else HashFrom(name, i + 1, (hash ^ ((name[i] as int % 256) as bv64)) * 1099511628211)
  }

  function Hash(name: string): nat {
    HashFrom(name, 0, 1469598103934665603) as nat
  }

  class Node<V> {
    const name: string
    const hash: nat
    var bucketNext: Node?<V>
    var iterNext: Node?<V>
    var data: V

    constructor (name: string, data: V)
      ensures this.name == name && this.hash == Hash(name) && this.data == data
    {
      this.name, this.data := name, data;
      this.hash := Hash(name);
      bucketNext, iterNext := null, null;
    }
  }

  function Nth<V>(ns: seq<Node<V>>, i: nat): Node?<V> {
    if i < |ns| then ns[i] else null
  }

  /** The nodes of a list, from its first node on, in the order of one of their links. */
  ghost predicate IterLinked<V>(head: Node?<V>, ns: seq<Node<V>>)
    reads ns`iterNext
  {
    head == Nth(ns, 0) && forall i :: 0 <= i < |ns| ==> ns[i].iterNext == Nth(ns, i + 1)
  }

  ghost predicate BucketLinked<V>(head: Node?<V>, ns: seq<Node<V>>)
    reads ns`bucketNext
  {
    head == Nth(ns, 0) && forall i :: 0 <= i < |ns| ==> ns[i].bucketNext == Nth(ns, i + 1)
  }

  ghost predicate Unique<T>(s: seq<T>) {
    forall i, j :: 0 <= i < j < |s| ==> s[i] != s[j]
  }

  function Without<T>(s: seq<T>, k: nat): seq<T>
    requires k < |s|
  {
    s[..k] + s[k + 1..]
  }

  ghost predicate NamesUnique<V>(ns: seq<Node<V>>) {
    forall i, j :: 0 <= i < j < |ns| ==> ns[i].name != ns[j].name
  }

  /** Every listed node is in exactly the bucket of its hash, and nothing else is in any bucket. */
  ghost predicate Filed<V>(buckets: seq<seq<Node<V>>>, list: seq<Node<V>>) {
    && |buckets| > 0
    && (forall n :: n in list ==> n.hash == Hash(n.name) && n in buckets[n.hash % |buckets|])
    && (forall b, n :: 0 <= b < |buckets| && n in buckets[b] ==> n in list && n.hash % |buckets| == b)
    && forall b :: 0 <= b < |buckets| ==> Unique(buckets[b])
  }

  /** The nodes of the chains are all listed. */
  ghost predicate Listed<V>(chains: seq<seq<Node<V>>>, list: seq<Node<V>>) {
    forall b, i :: 0 <= b < |chains| && 0 <= i < |chains[b]| ==> chains[b][i] in list
  }

  /** Every bucket leads through its chain. */
  ghost predicate ChainsLinked<V>(buckets: seq<Node?<V>>, chains: seq<seq<Node<V>>>, list: seq<Node<V>>)
    requires Listed(chains, list)
    reads list`bucketNext
  {
    |buckets| == |chains| && forall b :: 0 <= b < |buckets| ==> BucketLinked(buckets[b], chains[b])
  }

  class Table<V> {
    /** The first node of each bucket. */
    var buckets: seq<Node?<V>>
    var count: nat
    var iterHead: Node?<V>
    /** The nodes in the order they were put in, and those of each bucket. */
    ghost var list: seq<Node<V>>
    ghost var chains: seq<seq<Node<V>>>

    ghost predicate Valid()
      reads this, list`iterNext, list`bucketNext
    {
      && count == |list|
      && NamesUnique(list)
      && IterLinked(iterHead, list)
      && Listed(chains, list) && ChainsLinked(buckets, chains, list)
      && (if |buckets| == 0 then list == []
          else |buckets| >= FIRST_BUCKETS && Filed(chains, list) && count * 4 < |buckets| * 3)
    }

    constructor ()
      ensures Valid() && list == []
    {
      buckets, count, iterHead := [], 0, null;
      list, chains := [], [];
    }

    /** The iteration list from its head, one link at a time. */
    lemma IterAt(i: nat)
      requires Valid() && i <= |list|
      ensures (i == 0 ==> iterHead == Nth(list, i)) && (i < |list| ==> list[i].iterNext == Nth(list, i + 1))
    {
      hide Filed, Hash;
    }

    /** Walks the iteration list and puts every node in front of its new bucket. */
    method Rehash(bucketCount: nat)
      requires bucketCount > 0 && NamesUnique(list) && IterLinked(iterHead, list)
      requires forall n :: n in list ==> n.hash == Hash(n.name)
      modifies this`buckets, this`chains, list`bucketNext
      ensures |buckets| == bucketCount && Filed(chains, list) && Listed(chains, list)
      ensures ChainsLinked(buckets, chains, list)
    {
      hide Hash, HashFrom, Filed, Listed, ChainsLinked, NamesUnique;
      var heads: seq<Node?<V>> := seq(bucketCount, _ => null);
      ghost var filed: seq<seq<Node<V>>> := seq(bucketCount, _ => []);
      NoneYet(heads, filed);
      ghost var i := 0;
      var node := iterHead;
      assert list[..0] == [];
      while node != null
        invariant 0 <= i <= |list| && node == Nth(list, i) && |heads| == bucketCount
        invariant Filed(filed, list[..i]) && Listed(filed, list[..i]) && ChainsLinked(heads, filed, list[..i])
        decreases |list| - i
      {
        NotBefore(list, i);
        heads, filed := PutInFront(heads, filed, list[..i], node);
        assert list[..i + 1] == list[..i] + [node];
        node := node.iterNext;
        i := i + 1;
      }
      assert list[..|list|] == list;
      buckets, chains := heads, filed;
    }

    static lemma NoneYet(heads: seq<Node?<V>>, filed: seq<seq<Node<V>>>)
      requires |heads| == |filed| > 0 && (forall b :: 0 <= b < |heads| ==> heads[b] == null && filed[b] == [])
      ensures Filed(filed, []) && Listed(filed, []) && ChainsLinked(heads, filed, [])
    {
      hide Hash;
    }

    static lemma NotBefore(list: seq<Node<V>>, i: nat)
      requires NamesUnique(list) && i < |list|
      ensures list[i] !in list[..i]
    {
    }

    /** Makes a node the first of its bucket. */
    static method PutInFront(heads: seq<Node?<V>>, ghost filed: seq<seq<Node<V>>>, ghost done: seq<Node<V>>,
                             node: Node<V>)
      returns (newHeads: seq<Node?<V>>, ghost newFiled: seq<seq<Node<V>>>)
      requires Filed(filed, done) && Listed(filed, done) && ChainsLinked(heads, filed, done)
      requires node !in done && node.hash == Hash(node.name)
      modifies node`bucketNext
      ensures |newHeads| == |heads| && Filed(newFiled, done + [node]) && Listed(newFiled, done + [node])
      ensures ChainsLinked(newHeads, newFiled, done + [node])
    {
      hide Hash, HashFrom, Filed;
      FiledSize(filed, done);
      var bucket := node.hash % |heads|;
      Refile(filed, done, node);
      node.bucketNext := heads[bucket];
      newHeads := heads[bucket := node];
      newFiled := filed[bucket := [node] + filed[bucket]];
      forall b | 0 <= b < |newHeads| ensures BucketLinked(newHeads[b], newFiled[b]) {
        assert forall i :: 0 <= i < |filed[b]| ==> filed[b][i] in done;
        assert BucketLinked(heads[b], filed[b]);
        if b == bucket {
          LinkedInFront(node, heads[b], filed[b]);
        }
      }
    }

    static lemma FiledSize(filed: seq<seq<Node<V>>>, list: seq<Node<V>>)
      requires Filed(filed, list)
      ensures |filed| > 0
    {
      hide Hash;
    }

    static lemma LinkedInFront(node: Node<V>, head: Node?<V>, ns: seq<Node<V>>)
      requires BucketLinked(head, ns) && node.bucketNext == head
      ensures BucketLinked(node, [node] + ns)
    {
      var all := [node] + ns;
      assert forall i :: 0 < i < |all| ==> all[i] == ns[i - 1];
    }

    static lemma Refile(buckets: seq<seq<Node<V>>>, list: seq<Node<V>>, node: Node<V>)
      requires Filed(buckets, list) && node !in list && node.hash == Hash(node.name)
      ensures (var b := node.hash % |buckets|;
               Filed(buckets[b := [node] + buckets[b]], list + [node]))
    {
      hide Hash;
    }

    lemma ChainAt(b: nat, i: nat)
      requires Valid() && b < |buckets| && i <= |chains[b]|
      ensures |chains| == |buckets| && (i == 0 ==> buckets[b] == Nth(chains[b], i))
      ensures i < |chains[b]| ==> chains[b][i] in list && chains[b][i].bucketNext == Nth(chains[b], i + 1)
    {
      hide Filed, Hash;
      assert BucketLinked(buckets[b], chains[b]);
    }

    /** Finds the node of a name by its bucket: the one in the list, if there is one. */
    method Lookup(name: string) returns (node: Node?<V>)
      requires Valid()
      ensures node != null ==> node in list && node.name == name
      ensures node == null ==> forall n :: n in list ==> n.name != name
    {
      hide Hash, HashFrom, Filed, Listed, ChainsLinked, IterLinked, NamesUnique;
      if |buckets| == 0 {
        return null;
      }
      var hash := Hash(name);
      var b := hash % |buckets|;
      ghost var i := 0;
      node := buckets[b];
      ChainAt(b, 0);
      while node != null
        invariant 0 <= i <= |chains[b]| && node == Nth(chains[b], i)
        invariant forall j :: 0 <= j < i ==> chains[b][j].name != name
        decreases |chains[b]| - i
      {
        ChainAt(b, i);
        FiledIn(chains, list, b, i);
        if node.hash == hash && node.name == name {
          return;
        }
        node := node.bucketNext;
        i := i + 1;
      }
      Absent(chains, list, name);
    }

    /** Puts a node with a new name at the end of the list. */
    method Insert(node: Node<V>)
      requires Valid() && node.hash == Hash(node.name)
      requires forall n :: n in list ==> n.name != node.name
      modifies this, list`bucketNext, list`iterNext, node`bucketNext, node`iterNext
      ensures Valid() && list == old(list) + [node]
    {
      hide Hash, HashFrom, Filed, Listed, ChainsLinked, IterLinked, NamesUnique;
      if |buckets| == 0 {
        Rehash(FIRST_BUCKETS);
      } else if (count + 1) * 4 >= |buckets| * 3 {
        FiledHashes(chains, list);
        Rehash(|buckets| * 2);
      }
      assert node !in list;
      NamesWith(list, node);
      buckets, chains := PutInFront(buckets, chains, list, node);
      LinkAtEnd(node);
      count := count + 1;
    }

    static lemma NamesWith(list: seq<Node<V>>, node: Node<V>)
      requires NamesUnique(list) && forall n :: n in list ==> n.name != node.name
      ensures NamesUnique(list + [node])
    {
    }

    /** Walks to the last node and puts the new one behind it. */
    method LinkAtEnd(node: Node<V>)
      requires IterLinked(iterHead, list) && node !in list && NamesUnique(list)
      modifies this`iterHead, this`list, list`iterNext, node`iterNext
      ensures list == old(list) + [node] && IterLinked(iterHead, list)
    {
      node.iterNext := null;
      if iterHead == null {
        iterHead := node;
      } else {
        var tail := iterHead;
        ghost var i := 0;
        while tail.iterNext != null
          invariant 0 <= i < |list| && tail == list[i] && IterLinked(iterHead, list)
          decreases |list| - i
          modifies {}
        {
          tail := tail.iterNext;
          i := i + 1;
        }
        tail.iterNext := node;
      }
      list := list + [node];
    }

    static lemma FiledHashes(buckets: seq<seq<Node<V>>>, list: seq<Node<V>>)
      requires Filed(buckets, list)
      ensures forall n :: n in list ==> n.hash == Hash(n.name)
    {
      hide Hash;
    }

    /** Takes the node of a name out of both lists, leaving the order of the others. */
    method Remove(name: string) returns (node: Node?<V>)
      requires Valid()
      modifies this, list`bucketNext, list`iterNext
      ensures Valid()
      ensures node == null ==> list == old(list) && forall n :: n in list ==> n.name != name
      ensures node != null ==> node.name == name && node in old(list)
      ensures node != null ==> exists k :: 0 <= k < |old(list)| && old(list)[k] == node && list == Without(old(list), k)
    {
      hide Hash, HashFrom, Filed, Listed, ChainsLinked, IterLinked, NamesUnique, Unique;
      if |buckets| == 0 {
        return null;
      }
      var hash := Hash(name);
      var b := hash % |buckets|;
      ghost var i := 0;
      var before: Node?<V> := null;
      node := buckets[b];
      ChainAt(b, 0);
      while node != null && !(node.hash == hash && node.name == name)
        invariant 0 <= i <= |chains[b]| && node == Nth(chains[b], i)
        invariant before == if i > 0 then chains[b][i - 1] else null
        invariant forall j :: 0 <= j < i ==> chains[b][j].name != name
        decreases |chains[b]| - i
        modifies {}
      {
        ChainAt(b, i);
        FiledIn(chains, list, b, i);
        before, node := node, node.bucketNext;
        i := i + 1;
      }
      if node == null {
        Absent(chains, list, name);
        return;
      }
      FiledIn(chains, list, b, i);
      NamesDiffer(list);
      ghost var k := Unlink(b, before, node, i);
    }

    /** Makes the links of the bucket and of the iteration list that lead to the node lead past it. */
    method Unlink(b: nat, before: Node?<V>, node: Node<V>, ghost i: nat) returns (ghost k: nat)
      requires Valid() && Unique(list) && b < |buckets| && i < |chains[b]| && node == chains[b][i] && node in list
      requires before == if i > 0 then chains[b][i - 1] else null
      modifies this, list`bucketNext, list`iterNext
      ensures Valid() && k < |old(list)| && old(list)[k] == node && list == Without(old(list), k)
    {
      hide Hash, HashFrom, Filed, Listed, ChainsLinked, IterLinked, NamesUnique, Unique;
      ghost var filed, nodes := chains, list;
      ChainAt(b, i);
      k := UnlinkIter(node);
      UnlinkBucket(b, before, node, i, nodes);
      Unfile(filed, nodes, b, i, k);
      WithoutHas(nodes, k);
      FewerListed(nodes, k);
      ClearLinks(node);
      count := count - 1;
    }

    method ClearLinks(node: Node<V>)
      requires Listed(chains, list) && ChainsLinked(buckets, chains, list) && IterLinked(iterHead, list)
      requires node !in list
      modifies node`bucketNext, node`iterNext
      ensures ChainsLinked(buckets, chains, list) && IterLinked(iterHead, list)
      ensures node.bucketNext == null && node.iterNext == null
    {
      hide Listed, ChainsLinked, IterLinked;
      node.bucketNext, node.iterNext := null, null;
    }

    /** Takes the `i`th node of a bucket out of its chain; `before` is the node in front of it. */
    method UnlinkBucket(b: nat, before: Node?<V>, node: Node<V>, ghost i: nat, ghost nodes: seq<Node<V>>)
      requires Filed(chains, nodes) && Listed(chains, nodes) && ChainsLinked(buckets, chains, nodes)
      requires b < |buckets| == |chains| && i < |chains[b]| && node == chains[b][i]
      requires before == if i > 0 then chains[b][i - 1] else null
      modifies this`buckets, this`chains, nodes`bucketNext
      ensures chains == old(chains)[b := Without(old(chains)[b], i)] && |buckets| == |old(buckets)|
      ensures Listed(chains, nodes) && ChainsLinked(buckets, chains, nodes)
    {
      hide Hash, HashFrom, Filed, BucketLinked, Unique;
      FiledApart(chains, nodes, b);
      ghost var ns, rest := chains[b], Without(chains[b], i);
      assert forall j :: 0 <= j < |rest| ==> rest[j] == ns[if j < i then j else j + 1];
      var head := UnlinkChain(buckets[b], before, node, i, ns);
      forall c | 0 <= c < |buckets| && c != b ensures BucketLinked(buckets[c], chains[c]) {
        assert old(BucketLinked(buckets[c], chains[c]));
        assert forall j :: 0 <= j < |chains[c]| ==> chains[c][j] in chains[c] && chains[c][j] !in ns;
      }
      buckets := buckets[b := head];
      chains := chains[b := rest];
    }

    static method UnlinkChain(head: Node?<V>, before: Node?<V>, node: Node<V>, ghost i: nat, ghost ns: seq<Node<V>>)
      returns (newHead: Node?<V>)
      requires BucketLinked(head, ns) && Unique(ns) && i < |ns| && node == ns[i]
      requires before == if i > 0 then ns[i - 1] else null
      modifies ns`bucketNext
      ensures BucketLinked(newHead, Without(ns, i))
    {
      ghost var rest := Without(ns, i);
      newHead := head;
      if before == null {
        newHead := node.bucketNext;
      } else {
        before.bucketNext := node.bucketNext;
      }
      forall j | 0 <= j < |rest| ensures rest[j].bucketNext == Nth(rest, j + 1) {
        assert rest[j] == ns[if j < i then j else j + 1];
      }
    }

    /** Walks the iteration list to the link that leads to the node, and makes it lead past it. */
    method UnlinkIter(node: Node<V>) returns (ghost k: nat)
      requires IterLinked(iterHead, list) && Unique(list) && node in list
      modifies this`iterHead, this`list, list`iterNext
      ensures k < |old(list)| && old(list)[k] == node && list == Without(old(list), k)
      ensures IterLinked(iterHead, list)
    {
      k := 0;
      var before: Node?<V> := null;
      var at := iterHead;
      while at != node
        invariant 0 <= k < |list| && at == list[k] && node in list[k..]
        invariant before == if k > 0 then list[k - 1] else null
        decreases |list| - k
        modifies {}
      {
        before, at := at, at.iterNext;
        k := k + 1;
      }
      ghost var ns, rest := list, Without(list, k);
      if before == null {
        iterHead := node.iterNext;
      } else {
        before.iterNext := node.iterNext;
      }
      list := rest;
      forall j | 0 <= j < |rest| ensures rest[j].iterNext == Nth(rest, j + 1) {
        assert rest[j] == ns[if j < k then j else j + 1];
      }
    }

    static lemma FiledIn(buckets: seq<seq<Node<V>>>, list: seq<Node<V>>, b: nat, i: nat)
      requires Filed(buckets, list) && b < |buckets| && i < |buckets[b]|
      ensures buckets[b][i] in list && buckets[b][i].hash == Hash(buckets[b][i].name)
    {
      hide Hash;
    }

    /** The chains of a removed node's table list only what is left. */
    lemma FewerListed(nodes: seq<Node<V>>, k: nat)
      requires k < |nodes| && list == Without(nodes, k) && Listed(chains, nodes) && Filed(chains, list)
      requires ChainsLinked(buckets, chains, nodes)
      ensures Listed(chains, list) && ChainsLinked(buckets, chains, list)
    {
      hide Hash, Without, Filed, BucketLinked;
      FiledListed(chains, list);
    }

    static lemma FiledListed(chains: seq<seq<Node<V>>>, list: seq<Node<V>>)
      requires Filed(chains, list)
      ensures Listed(chains, list)
    {
      hide Hash;
    }

    static lemma FiledApart(chains: seq<seq<Node<V>>>, list: seq<Node<V>>, b: nat)
      requires Filed(chains, list) && b < |chains|
      ensures Unique(chains[b]) && forall n :: n in chains[b] ==> n in list
      ensures forall c, n :: 0 <= c < |chains| && c != b && n in chains[c] ==> n !in chains[b]
    {
      hide Hash;
    }

    /** A name that is not in the bucket of its hash is nowhere. */
    static lemma Absent(buckets: seq<seq<Node<V>>>, list: seq<Node<V>>, name: string)
      requires Filed(buckets, list)
      requires forall n :: n in buckets[Hash(name) % |buckets|] ==> n.name != name
      ensures forall n :: n in list ==> n.name != name
    {
      hide Hash;
    }

    static lemma Unfile(buckets: seq<seq<Node<V>>>, list: seq<Node<V>>, b: nat, i: nat, k: nat)
      requires Filed(buckets, list) && NamesUnique(list)
      requires b < |buckets| && i < |buckets[b]| && k < |list| && buckets[b][i] == list[k]
      ensures Filed(buckets[b := Without(buckets[b], i)], Without(list, k)) && NamesUnique(Without(list, k))
    {
      hide Hash;
      WithoutHas(buckets[b], i);
      NamesDiffer(list);
      WithoutHas(list, k);
      NamesWithout(list, k);
      assert buckets[b][i] in buckets[b];
      var bs, ns := buckets[b := Without(buckets[b], i)], Without(list, k);
      forall n | n in ns ensures n.hash == Hash(n.name) && n in bs[n.hash % |bs|] {
      }
      forall c, n | 0 <= c < |bs| && n in bs[c] ensures n in ns && n.hash % |bs| == c {
        if c == b {
          assert n in Without(buckets[b], i);
          assert n in buckets[b];
        } else {
          assert n in buckets[c];
        }
        assert n in list && n != list[k];
      }
      forall c | 0 <= c < |bs| ensures Unique(bs[c]) {
      }
    }

    static lemma NamesDiffer(list: seq<Node<V>>)
      requires NamesUnique(list)
      ensures Unique(list)
    {
    }

    static lemma NamesWithout(list: seq<Node<V>>, k: nat)
      requires NamesUnique(list) && k < |list|
      ensures NamesUnique(Without(list, k))
    {
      var ns := Without(list, k);
      assert forall j :: 0 <= j < |ns| ==> ns[j] == list[if j < k then j else j + 1];
    }

    static lemma WithoutHas(s: seq<Node<V>>, k: nat)
      requires Unique(s) && k < |s|
      ensures Unique(Without(s, k))
      ensures forall n :: n in Without(s, k) <==> n in s && n != s[k]
    {
      var r := Without(s, k);
      assert forall j :: 0 <= j < |r| ==> r[j] == s[if j < k then j else j + 1];
      forall n | n in s && n != s[k] ensures n in r {
        var j :| 0 <= j < |s| && s[j] == n;
        assert r[if j < k then j else j - 1] == n;
      }
    }
  }
}
