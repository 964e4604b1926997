/** The arena as two linked lists of blocks that are rewired in place; each operation does to the lists
    what ArenaModel says. */
module Arena {
  import opened Common
  import M = ArenaModel

  class Node {
    var next: Node?
    var used: nat
    const base: nat
    const cap: nat

    constructor (base: nat, cap: nat)
      ensures this.base == base && this.cap == cap && next == null && used == 0
    {
      this.base, this.cap, next, used := base, cap, null, 0;
    }
  }

  function Behind(ns: seq<Node>, i: nat): Node? {
    if i + 1 < |ns| then ns[i + 1] else null
  }

  /** The nodes of a list, from its first node `p` on, stand for the blocks `bs`. */
  ghost predicate Linked(p: Node?, ns: seq<Node>, bs: seq<M.Block>)
    reads ns
  {
    && |ns| == |bs|
    && p == (if ns == [] then null else ns[0])
    && (forall i :: 0 <= i < |ns| ==> ns[i].next == Behind(ns, i))
    && forall i :: 0 <= i < |ns| ==> bs[i] == M.Block(ns[i].base, ns[i].cap, ns[i].used)
  }

  ghost predicate Distinct(ns: seq<Node>) {
    forall i, j :: 0 <= i < j < |ns| ==> ns[i] != ns[j]
  }

  lemma LinkedTail(p: Node?, ns: seq<Node>, bs: seq<M.Block>)
    requires Linked(p, ns, bs) && p != null && Distinct(ns)
    ensures ns != [] && p == ns[0] && bs[0] == M.Block(p.base, p.cap, p.used)
    ensures Linked(p.next, ns[1..], bs[1..]) && Distinct(ns[1..]) && p in ns && p !in ns[1..]
    ensures forall n :: n in ns[1..] ==> n in ns
  {
    var ms, cs := ns[1..], bs[1..];
    assert forall i :: 0 <= i < |ms| ==> ms[i] == ns[i + 1] && cs[i] == bs[i + 1];
  }

  lemma LinkedCons(n: Node, ns: seq<Node>, bs: seq<M.Block>)
    requires Linked(n.next, ns, bs) && n !in ns && Distinct(ns)
    ensures Linked(n, [n] + ns, [M.Block(n.base, n.cap, n.used)] + bs) && Distinct([n] + ns)
  {
    var ms, cs := [n] + ns, [M.Block(n.base, n.cap, n.used)] + bs;
    assert forall i :: 0 < i < |ms| ==> ms[i] == ns[i - 1] && cs[i] == bs[i - 1];
  }

  lemma LinkedAt(p: Node?, ns: seq<Node>, bs: seq<M.Block>, k: nat)
    requires Linked(p, ns, bs) && k < |ns|
    ensures ns[k].next == Behind(ns, k)
    ensures bs[k] == M.Block(ns[k].base, ns[k].cap, ns[k].used)
  {
  }

  lemma LinkedEnds(p: Node?, ns: seq<Node>, bs: seq<M.Block>)
    requires Linked(p, ns, bs)
    ensures |ns| == |bs| && p == if ns == [] then null else ns[0]
  {
  }

  class Arena {
    var head: Node?
    var freeList: Node?
    const blockSize: nat
    ghost var chain: seq<Node>
    ghost var free: seq<Node>
    ghost var view: M.State

    ghost predicate Valid()
      reads this, chain, free
    {
      && blockSize == view.blockSize >= M.MIN_BLOCK
      && Linked(head, chain, view.chain) && Linked(freeList, free, view.free)
      && Distinct(chain) && Distinct(free)
      && forall n :: n in chain ==> n !in free
    }

    constructor (size: nat)
      ensures Valid() && view == M.State([], [], if size < M.MIN_BLOCK then M.MIN_BLOCK else size)
      ensures chain == [] && free == []
    {
      blockSize := if size < M.MIN_BLOCK then M.MIN_BLOCK else size;
      head, freeList, chain, free := null, null, [], [];
      view := M.State([], [], if size < M.MIN_BLOCK then M.MIN_BLOCK else size);
    }

    /** Moves the head block to the front of the free list. */
    method RecycleHead()
      requires Valid() && head != null
      modifies this, head
      ensures Valid() && chain == old(chain)[1..] && free == [old(head)] + old(free)
      ensures view == M.State(old(view).chain[1..], [M.Unused(old(view).chain[0])] + old(view).free, blockSize)
    {
      hide Linked, Distinct;
      LinkedEnds(head, chain, view.chain);
      LinkedTail(head, chain, view.chain);
      var block := head;
      head := block.next;
      block.used := 0;
      block.next := freeList;
      LinkedCons(block, free, view.free);
      freeList := block;
      view := M.State(view.chain[1..], [M.Unused(view.chain[0])] + view.free, blockSize);
      chain, free := chain[1..], [block] + free;
    }

    method Reset()
      requires Valid()
      modifies this, chain
      ensures Valid() && view == M.Reset(old(view))
      ensures forall n :: n in chain + free ==> n in old(chain) + old(free)
    {
      hide Linked, Distinct;
      LinkedEnds(head, chain, view.chain);
      while head != null
        invariant |chain| == |view.chain| && head == (if chain == [] then null else chain[0])
        invariant head != null ==> head in chain
        invariant Valid() && M.Reset(view) == M.Reset(old(view))
        invariant forall n :: n in chain ==> n in old(chain)
        invariant forall n :: n in free ==> n in old(chain) + old(free)
        decreases |chain|
      {
        RecycleHead();
        LinkedEnds(head, chain, view.chain);
      }
    }

    method MarkTake() returns (mark: Node?, used: nat)
      requires Valid()
      ensures mark == head && M.TakeMark(view) == M.Mark(if mark == null then None else Some(mark.base), used)
    {
      mark := head;
      used := if head != null then head.used else 0;
    }

    lemma BasesDiffer()
      requires Valid() && M.Valid(view)
      ensures forall n, m :: n in chain + free && m in chain + free && n.base == m.base ==> n == m
    {
      var all := chain + free;
      forall i, j | 0 <= i < j < |all| ensures all[i].base != all[j].base {
        assert M.All(view)[i] == M.Block(all[i].base, all[i].cap, all[i].used);
        assert M.All(view)[j] == M.Block(all[j].base, all[j].cap, all[j].used);
        assert M.Apart(M.All(view)[i], M.All(view)[j]);
      }
    }

    /** The mark may also be one that a reset or an earlier rewind has made stale: then everything goes. */
    method MarkRewind(mark: Node?, used: nat)
      requires Valid() && M.Valid(view) && (mark != null ==> mark in chain + free)
      modifies this, chain
      ensures Valid()
      ensures view == M.Rewind(old(view), M.Mark(if mark == null then None else Some(mark.base), used))
    {
      hide Linked, Distinct, M.Rewind;
      ghost var m := M.Mark(if mark == null then None else Some(mark.base), used);
      ghost var all := chain + free;
      BasesDiffer();
      LinkedEnds(head, chain, view.chain);
      while head != null && head != mark
        invariant |chain| == |view.chain| && head == (if chain == [] then null else chain[0])
        invariant head != null ==> head in chain
        invariant Valid() && M.Rewind(view, m) == M.Rewind(old(view), m)
        invariant forall n :: n in chain ==> n in old(chain) && n in all
        decreases |chain|
      {
        LinkedAt(head, chain, view.chain, 0);
        RewindTurn(view, m);
        RecycleHead();
        LinkedEnds(head, chain, view.chain);
      }
      RewindTurn(view, m);
      if head == null {
        return;
      }
      LinkedAt(head, chain, view.chain, 0);
      if used <= head.used {
        LinkedTail(head, chain, view.chain);
        head.used := used;
        LinkedCons(head, chain[1..], view.chain[1..]);
        assert [head] + chain[1..] == chain;
        view := view.(chain := [view.chain[0].(used := used)] + view.chain[1..]);
      }
    }

    static lemma RewindTurn(s: M.State, m: M.Mark)
      ensures M.Rewind(s, m) ==
              if s.chain == [] then s
              else if m.block == Some(s.chain[0].base) then
                if m.used <= s.chain[0].used then s.(chain := [s.chain[0].(used := m.used)] + s.chain[1..]) else s
              else M.Rewind(s.(chain := s.chain[1..], free := [M.Unused(s.chain[0])] + s.free), m)
    {
    }

    /** Unlinks the first block of the free list that has room, if there is one. */
    method TakeRecycledBlock(need: nat) returns (block: Node?)
      requires Valid()
      modifies this, free
      ensures Valid() && chain == old(chain) && forall n :: n in free ==> n in old(free)
      ensures (var k := M.FirstFit(old(view).free, need);
               if k == |old(free)| then block == null && view == old(view) && free == old(free)
               else
                 && block == old(free)[k] && block !in free && block !in chain
                 && view == old(view).(free := old(view).free[..k] + old(view).free[k + 1..])
                 && free == old(free)[..k] + old(free)[k + 1..]
                 && M.Unused(old(view).free[k]) == M.Block(block.base, block.cap, 0) && block.used == 0)
    {
      hide Linked, Distinct, M.FirstFit;
      ghost var k := 0;
      var before: Node? := null;
      block := freeList;
      LinkedEnds(freeList, free, view.free);
      assert view.free[0..] == view.free;
      while block != null && block.cap < need
        invariant 0 <= k <= |free| == |view.free|
        invariant block == if k < |free| then free[k] else null
        invariant before == if k > 0 then free[k - 1] else null
        invariant M.FirstFit(view.free, need) == k + M.FirstFit(view.free[k..], need)
        modifies {}
        decreases |free| - k
      {
        LinkedAt(freeList, free, view.free, k);
        FitTurn(view.free, k, need);
        before := block;
        block := block.next;
        k := k + 1;
      }
      FitTurn(view.free, k, need);
      if block != null {
        LinkedAt(freeList, free, view.free, k);
        assert M.Unused(view.free[k]) == M.Block(block.base, block.cap, 0);
        Unlink(before, block, k);
        block.next := null;
        block.used := 0;
      }
    }

    static lemma FitTurn(free: seq<M.Block>, k: nat, need: nat)
      requires k <= |free|
      ensures M.FirstFit(free[k..], need) ==
              if k == |free| || free[k].cap >= need then 0 else 1 + M.FirstFit(free[k + 1..], need)
    {
      if k < |free| {
        assert free[k..][1..] == free[k + 1..];
      }
    }

    /** Takes the `k`th block out of the free list; `before` is the block in front of it. */
    method Unlink(before: Node?, block: Node, ghost k: nat)
      requires Valid() && k < |free| && block == free[k]
      requires before == if k > 0 then free[k - 1] else null
      modifies this, before
      ensures Valid() && chain == old(chain)
      ensures view == old(view).(free := old(view).free[..k] + old(view).free[k + 1..])
      ensures free == old(free)[..k] + old(free)[k + 1..]
      ensures block !in free && block !in chain
    {
      hide Linked, Distinct, Behind;
      RestIs(k);
      FirstOfRest(free, k);
      ghost var list, rest, bs := free, free[..k] + free[k + 1..], view.free[..k] + view.free[k + 1..];
      assert before != null ==> before in free;
      if before == null {
        freeList := block.next;
      } else {
        before.next := block.next;
      }
      forall i | 0 <= i < |rest|
        ensures rest[i].next == Behind(rest, i) && bs[i] == M.Block(rest[i].base, rest[i].cap, rest[i].used)
      {
        assert rest[i] == list[if i < k then i else i + 1];
      }
      Relinked(freeList, rest, bs);
      view := view.(free := bs);
      free := rest;
    }

    static lemma FirstOfRest(ns: seq<Node>, k: nat)
      requires k < |ns|
      ensures (var rest := ns[..k] + ns[k + 1..];
               (if rest == [] then null else rest[0]) == if k > 0 then ns[0] else Behind(ns, k))
    {
    }

    /** The free list without its `k`th block, as it is before anything is changed. */
    lemma RestIs(k: nat)
      requires Valid() && k < |free|
      ensures |view.free| == |free|
      ensures (var rest := free[..k] + free[k + 1..];
               var bs := view.free[..k] + view.free[k + 1..];
               && Distinct(rest)
               && (forall i {:trigger rest[i]} :: 0 <= i < |rest| ==>
                     var n := rest[i];
                     && n == free[if i < k then i else i + 1] && n != free[k] && n !in chain
                     && Behind(rest, i) == (if i + 1 == k then free[k].next else n.next)
                     && (k > 0 && n == free[k - 1] ==> i + 1 == k)
                     && bs[i] == M.Block(n.base, n.cap, n.used)))
      ensures free[k] !in chain && freeList == free[0] && free[k].next == Behind(free, k)
    {
      var rest := free[..k] + free[k + 1..];
      var bs := view.free[..k] + view.free[k + 1..];
      forall i | 0 <= i < |rest|
        ensures var n := rest[i];
                && n == free[if i < k then i else i + 1] && n != free[k] && n !in chain
                && Behind(rest, i) == (if i + 1 == k then free[k].next else n.next)
                && (k > 0 && n == free[k - 1] ==> i + 1 == k)
                && bs[i] == M.Block(n.base, n.cap, n.used)
      {
        var j := if i < k then i else i + 1;
        LinkedAt(freeList, free, view.free, j);
        LinkedAt(freeList, free, view.free, k);
      }
    }

    static lemma Relinked(p: Node?, ns: seq<Node>, bs: seq<M.Block>)
      requires |ns| == |bs| && p == if ns == [] then null else ns[0]
      requires forall i :: 0 <= i < |ns| ==>
                 ns[i].next == Behind(ns, i) && bs[i] == M.Block(ns[i].base, ns[i].cap, ns[i].used)
      ensures Linked(p, ns, bs)
    {
    }

    /** `place` stands for the address `malloc` would answer. */
    method AllocIn(size: nat, place: nat) returns (p: nat)
      requires Valid()
      modifies this, chain, free
      ensures Valid()
      ensures (view, p) == M.Alloc(old(view), size, place)
    {
      hide Linked, Distinct, M.FirstFit, M.Grown, M.Total;
      var total := M.Total(size);
      LinkedEnds(head, chain, view.chain);
      if head != null {
        LinkedAt(head, chain, view.chain, 0);
      }
      if head == null || head.used + total > head.cap {
        OpenBlock(total, place);
        HeadIn();
      }
      p := Bump(total);
    }

    lemma HeadIn()
      requires Valid() && head != null
      ensures head in chain && head == chain[0] && |chain| == |view.chain|
    {
    }

    /** Cuts `total` bytes from the head block. */
    method Bump(total: nat) returns (p: nat)
      requires Valid() && M.HeadFits(view, total)
      modifies this, head
      ensures Valid() && chain == old(chain) && free == old(free)
      ensures (var b := old(view).chain[0];
               && p == b.base + b.used + M.SLOT
               && view == old(view).(chain := [b.(used := b.used + total)] + old(view).chain[1..]))
    {
      hide Linked, Distinct;
      LinkedEnds(head, chain, view.chain);
      LinkedTail(head, chain, view.chain);
      p := head.base + head.used + M.SLOT;
      head.used := head.used + total;
      LinkedCons(head, chain[1..], view.chain[1..]);
      assert [head] + chain[1..] == chain;
      view := view.(chain := [view.chain[0].(used := view.chain[0].used + total)] + view.chain[1..]);
    }

    method OpenBlock(need: nat, place: nat)
      requires Valid() && !M.HeadFits(view, need)
      modifies this, free
      ensures Valid() && view == M.Ready(old(view), need, place) && chain != [] && head != null
      ensures fresh(chain[0]) || chain[0] in old(free)
      ensures chain[1..] == old(chain)
      ensures forall n :: n in free ==> n in old(free)
    {
      hide Linked, Distinct, M.FirstFit, M.Grown;
      LinkedEnds(freeList, free, view.free);
      var block := TakeRecycledBlock(need);
      if block == null {
        var capacity := blockSize;
        while capacity < need
          invariant capacity > 0 && M.Grown(capacity, need) == M.Grown(blockSize, need)
          modifies {}
          decreases need - capacity
        {
          GrownTurn(capacity, need);
          capacity := capacity * 2;
        }
        GrownTurn(capacity, need);
        block := new Node(place, capacity);
      }
      block.next := head;
      LinkedCons(block, chain, view.chain);
      head := block;
      view := view.(chain := [M.Block(block.base, block.cap, 0)] + view.chain);
      chain := [block] + chain;
    }

    static lemma GrownTurn(size: nat, need: nat)
      requires size > 0
      ensures M.Grown(size, need) == if size < need then M.Grown(2 * size, need) else size
    {
    }

    /** Whether an address lies in a block of the arena, used or recycled. */
    method PointerInArena(p: nat) returns (b: bool)
      requires Valid()
      ensures b <==> M.Owns(view, p)
    {
      hide Linked, Distinct;
      LinkedEnds(head, chain, view.chain);
      var block := head;
      ghost var k := 0;
      while block != null
        invariant 0 <= k <= |chain| == |view.chain| && block == if k < |chain| then chain[k] else null
        invariant forall j :: 0 <= j < k ==> !M.Within(view.chain[j], p)
        decreases |chain| - k
      {
        LinkedAt(head, chain, view.chain, k);
        if block.base <= p < block.base + block.cap {
          assert M.Within(view.chain[k], p);
          return true;
        }
        block := block.next;
        k := k + 1;
      }
      LinkedEnds(freeList, free, view.free);
      block := freeList;
      k := 0;
      while block != null
        invariant 0 <= k <= |free| == |view.free| && block == if k < |free| then free[k] else null
        invariant forall j :: 0 <= j < k ==> !M.Within(view.free[j], p)
        decreases |free| - k
      {
        LinkedAt(freeList, free, view.free, k);
        if block.base <= p < block.base + block.cap {
          assert M.Within(view.free[k], p);
          return true;
        }
        block := block.next;
        k := k + 1;
      }
      return false;
    }
  }
}
