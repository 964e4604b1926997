/** What the arena promises: marks nest, a repeated run of allocations gets the same addresses, live
    allocations never overlap, and no pointer is ever disowned. */
module ArenaProps {
  import opened Common
  import opened ArenaModel

  // ---------- every operation keeps the arena well-formed and loses no block ----------

  lemma {:induction false} FramesConcat(a: seq<Block>, b: seq<Block>)
    ensures Frames(a + b) == Frames(a) + Frames(b)
  {
    if a == [] {
      assert a + b == b;
    } else {
      assert (a + b)[1..] == a[1..] + b;
      FramesConcat(a[1..], b);
    }
  }

  lemma FramesOne(b: Block, bs: seq<Block>)
    ensures Frames([b] + bs) == multiset{Frame(b)} + Frames(bs)
  {
    assert ([b] + bs)[1..] == bs;
  }

  lemma FramesWithout(bs: seq<Block>, k: nat)
    requires k < |bs|
    ensures Frames(bs) == multiset{Frame(bs[k])} + Frames(bs[..k] + bs[k + 1..])
  {
    hide Frames;
    assert bs == bs[..k] + ([bs[k]] + bs[k + 1..]);
    FramesConcat(bs[..k], [bs[k]] + bs[k + 1..]);
    FramesOne(bs[k], bs[k + 1..]);
    FramesConcat(bs[..k], bs[k + 1..]);
  }

  /** Whether a block has to be asked of `malloc`. */
  predicate NeedsNew(s: State, size: nat) {
    !HeadFits(s, Total(size)) && FirstFit(s.free, Total(size)) == |s.free|
  }

  lemma AllocStock(s: State, size: nat, place: nat)
    requires s.blockSize > 0
    ensures Stock(Alloc(s, size, place).0) ==
            Stock(s) + if NeedsNew(s, size) then multiset{(place, Grown(s.blockSize, Total(size)))} else multiset{}
  {
    hide Frames, FirstFit, Grown, Total;
    var need := Total(size);
    var ready := Ready(s, need, place);
    var head := ready.chain[0];
    FramesOne(head.(used := head.used + need), ready.chain[1..]);
    assert ready.chain == [head] + ready.chain[1..];
    FramesOne(head, ready.chain[1..]);
    if !HeadFits(s, need) {
      var k := FirstFit(s.free, need);
      FramesOne(NextBlock(s, need, place), s.chain);
      if k < |s.free| {
        FramesWithout(s.free, k);
      }
    }
  }

  lemma {:induction false} RewindStock(s: State, m: Mark)
    ensures Stock(Rewind(s, m)) == Stock(s)
    decreases |s.chain|
  {
    hide Frames;
    if s.chain != [] {
      assert s.chain == [s.chain[0]] + s.chain[1..];
      FramesOne(s.chain[0], s.chain[1..]);
      if m.block == Some(s.chain[0].base) {
        FramesOne(s.chain[0].(used := m.used), s.chain[1..]);
      } else {
        FramesOne(Unused(s.chain[0]), s.free);
        RewindStock(s.(chain := s.chain[1..], free := [Unused(s.chain[0])] + s.free), m);
      }
    }
  }

  /** A reset is the rewind to the mark of an empty arena. */
  lemma {:induction false} ResetIsRewind(s: State)
    ensures Reset(s) == Rewind(s, Mark(None, 0))
    decreases |s.chain|
  {
    if s.chain != [] {
      ResetIsRewind(s.(chain := s.chain[1..], free := [Unused(s.chain[0])] + s.free));
    }
  }

  lemma ReadyValid(s: State, need: nat, place: nat)
    requires Valid(s) && need > 0
    requires !HeadFits(s, need) && FirstFit(s.free, need) == |s.free| ==> NewAt(s, Grown(s.blockSize, need), place)
    ensures Valid(Ready(s, need, place))
  {
    hide FirstFit, Grown;
    if !HeadFits(s, need) {
      var k := FirstFit(s.free, need);
      var b := NextBlock(s, need, place);
      var r := Ready(s, need, place);
      if k < |s.free| {
        RecycledValid(s, k, b, r);
      } else {
        assert All(r) == [b] + All(s);
      }
    }
  }

  /** Moving a free block to the front of the chain. */
  lemma RecycledValid(s: State, k: nat, b: Block, r: State)
    requires Valid(s) && k < |s.free| && b == Unused(s.free[k])
    requires r == s.(chain := [b] + s.chain, free := s.free[..k] + s.free[k + 1..])
    ensures Valid(r)
  {
    var from := |s.chain| + k;
    assert s.free[k] == All(s)[from];
    assert All(r)[0] == b;
    forall i | 0 < i < |All(r)| ensures All(r)[i] == All(s)[if i - 1 < from then i - 1 else i] {
    }
  }

  lemma AllocValid(s: State, size: nat, place: nat)
    requires Valid(s) && MallocOk(s, size, place)
    ensures Valid(Alloc(s, size, place).0)
  {
    hide FirstFit, Grown, Total, Ready;
    var ready := Ready(s, Total(size), place);
    ReadyValid(s, Total(size), place);
    var r := Alloc(s, size, place).0;
    assert All(ready)[0] == ready.chain[0];
    assert (ready.chain[0].used + Total(size)) % UNIT == 0;
    assert forall i :: 0 < i < |All(r)| ==> All(r)[i] == All(ready)[i];
  }

  /** Moving the head block to the front of the free list. */
  lemma MovedValid(s: State, r: State)
    requires Valid(s) && s.chain != []
    requires r == s.(chain := s.chain[1..], free := [Unused(s.chain[0])] + s.free)
    ensures Valid(r)
  {
    var n := |s.chain| - 1;
    assert All(s)[0] == s.chain[0];
    assert All(r)[n] == Unused(All(s)[0]);
    forall i | 0 <= i < |All(r)| && i != n ensures All(r)[i] == All(s)[if i < n then i + 1 else i] {
    }
  }

  lemma CutValid(s: State, used: nat, r: State)
    requires Valid(s) && s.chain != [] && used <= s.chain[0].used && used % UNIT == 0
    requires r == s.(chain := [s.chain[0].(used := used)] + s.chain[1..])
    ensures Valid(r)
  {
    assert All(s)[0] == s.chain[0];
    forall i | 0 < i < |All(r)| ensures All(r)[i] == All(s)[i] {
    }
  }

  lemma {:induction false} RewindValid(s: State, m: Mark)
    requires Valid(s) && m.used % UNIT == 0
    ensures Valid(Rewind(s, m))
    decreases |s.chain|
  {
    hide Valid;
    if s.chain != [] {
      if m.block != Some(s.chain[0].base) {
        var r := s.(chain := s.chain[1..], free := [Unused(s.chain[0])] + s.free);
        MovedValid(s, r);
        RewindValid(r, m);
      } else if m.used <= s.chain[0].used {
        CutValid(s, m.used, Rewind(s, m));
      }
    }
  }

  // ---------- marks nest ----------

  /** What a rewind leaves of the chain, and what it puts in front of the free list. */
  function Below(chain: seq<Block>, m: Mark): seq<Block> {
    if chain == [] then []
    else if m.block == Some(chain[0].base) then
      if m.used <= chain[0].used then [chain[0].(used := m.used)] + chain[1..] else chain
    else Below(chain[1..], m)
  }

  function Spare(chain: seq<Block>, m: Mark): seq<Block> {
    if chain == [] || m.block == Some(chain[0].base) then []
    else Spare(chain[1..], m) + [Unused(chain[0])]
  }

  lemma {:induction false} RewindIs(s: State, m: Mark)
    ensures Rewind(s, m) == s.(chain := Below(s.chain, m), free := Spare(s.chain, m) + s.free)
    decreases |s.chain|
  {
    assert [] + s.free == s.free;
    if s.chain != [] && m.block != Some(s.chain[0].base) {
      var b := Unused(s.chain[0]);
      var rest := s.chain[1..];
      RewindIs(s.(chain := rest, free := [b] + s.free), m);
      SpareFirst(Spare(rest, m), b, s.free);
    }
  }

  lemma SpareFirst(spare: seq<Block>, b: Block, free: seq<Block>)
    ensures spare + ([b] + free) == (spare + [b]) + free
  {
  }

  /** The mark was taken on this chain, or on one it has grown from. */
  predicate Reaches(chain: seq<Block>, m: Mark) {
    m.block.None? ||
    (chain != [] &&
     if chain[0].base == m.block.value then m.used <= chain[0].used else Reaches(chain[1..], m))
  }

  lemma {:induction false} ReachesBlock(chain: seq<Block>, m: Mark)
    requires Reaches(chain, m) && m.block.Some?
    ensures exists k :: 0 <= k < |chain| && chain[k].base == m.block.value
  {
    if chain[0].base != m.block.value {
      ReachesBlock(chain[1..], m);
      var k :| 0 <= k < |chain[1..]| && chain[1..][k].base == m.block.value;
      assert chain[k + 1].base == m.block.value;
    }
  }

  /** A block that is opened is none of those in the chain. */
  lemma NextIsOther(s: State, size: nat, place: nat, k: nat)
    requires Valid(s) && MallocOk(s, size, place) && !HeadFits(s, Total(size)) && k < |s.chain|
    ensures NextBlock(s, Total(size), place).base != s.chain[k].base
  {
    hide Grown, Total;
    var f := FirstFit(s.free, Total(size));
    assert s.chain[k] == All(s)[k];
    if f < |s.free| {
      assert s.free[f] == All(s)[|s.chain| + f];
      assert Apart(All(s)[k], All(s)[|s.chain| + f]);
    } else {
      assert Apart(All(s)[k], Block(place, Grown(s.blockSize, Total(size)), 0));
    }
  }

  lemma ChainAfterAlloc(s: State, size: nat, place: nat)
    requires s.blockSize > 0
    ensures (var r := Alloc(s, size, place).0;
             var b := NextBlock(s, Total(size), place);
             if HeadFits(s, Total(size)) then
               r.chain == [s.chain[0].(used := s.chain[0].used + Total(size))] + s.chain[1..]
             else r.chain == [b.(used := Total(size))] + s.chain)
  {
    hide FirstFit, Grown, Total, NextBlock;
    if !HeadFits(s, Total(size)) {
      assert Ready(s, Total(size), place).chain[1..] == s.chain;
    }
  }

  lemma AllocBelow(s: State, size: nat, place: nat, m: Mark)
    requires Valid(s) && MallocOk(s, size, place) && Reaches(s.chain, m)
    ensures (var r := Alloc(s, size, place).0;
             && Reaches(r.chain, m) && Below(r.chain, m) == Below(s.chain, m)
             && Spare(r.chain, m) ==
                Spare(s.chain, m) + if HeadFits(s, Total(size)) then [] else [NextBlock(s, Total(size), place)])
  {
    hide FirstFit, Grown, Total, Alloc, Valid, MallocOk;
    ChainAfterAlloc(s, size, place);
    var r := Alloc(s, size, place).0;
    if HeadFits(s, Total(size)) {
      assert r.chain[1..] == s.chain[1..];
      assert Spare(s.chain, m) + [] == Spare(s.chain, m);
    } else {
      if m.block.Some? {
        ReachesBlock(s.chain, m);
        var k :| 0 <= k < |s.chain| && s.chain[k].base == m.block.value;
        NextIsOther(s, size, place, k);
      }
      var b := NextBlock(s, Total(size), place);
      assert r.chain[1..] == s.chain;
      assert Unused(b.(used := Total(size))) == b;
    }
  }

  lemma MarkHere(s: State)
    ensures Reaches(s.chain, TakeMark(s)) && Below(s.chain, TakeMark(s)) == s.chain
    ensures Spare(s.chain, TakeMark(s)) == []
  {
    if s.chain != [] {
      assert s.chain == [s.chain[0]] + s.chain[1..];
    }
  }

  // ---------- whole runs with nested marks ----------

  datatype Op = DoAlloc(size: nat, place: nat) | Scope(body: seq<Op>)

  /** What is allocated and not given back: header start and payload size. */
  datatype Slot = Slot(start: nat, size: nat)

  /** With the addresses that have been handed out, whether given back or not. */
  datatype Heap = Heap(arena: State, live: seq<Slot>, answers: seq<nat>)

  function Grant(h: Heap, size: nat, place: nat): (r: Heap)
    requires h.arena.blockSize > 0
    ensures r.arena.blockSize == h.arena.blockSize
  {
    var (arena, p) := Alloc(h.arena, size, place);
    Heap(arena, h.live + [Slot(p - SLOT, Payload(size))], h.answers + [p])
  }

  /** Rewinding to a mark that was taken in `h`. */
  function Close(h: Heap, inner: Heap): (r: Heap)
    ensures r.arena.blockSize == inner.arena.blockSize
  {
    Heap(Rewind(inner.arena, TakeMark(h.arena)), h.live, inner.answers)
  }

  /** A scope takes a mark, runs, and rewinds to the mark. */
  function Run(h: Heap, ops: seq<Op>): (r: Heap)
    requires h.arena.blockSize > 0
    ensures r.arena.blockSize == h.arena.blockSize
    decreases ops
  {
    if ops == [] then h
    else
      match ops[0]
      case DoAlloc(size, place) => Run(Grant(h, size, place), ops[1..])
      case Scope(body) => Run(Close(h, Run(h, body)), ops[1..])
  }

  predicate RunOk(h: Heap, ops: seq<Op>)
    requires h.arena.blockSize > 0
    decreases ops
  {
    ops == [] ||
    match ops[0]
    case DoAlloc(size, place) => MallocOk(h.arena, size, place) && RunOk(Grant(h, size, place), ops[1..])
    case Scope(body) => RunOk(h, body) && RunOk(Close(h, Run(h, body)), ops[1..])
  }

  function Taken(s: Slot): nat {
    SLOT + AlignUp(s.size)
  }

  /** Header and payload lie in the used part of a block. */
  predicate Inside(chain: seq<Block>, s: Slot) {
    exists k :: 0 <= k < |chain| && chain[k].base <= s.start && s.start + Taken(s) <= chain[k].base + chain[k].used
  }

  predicate Safe(h: Heap) {
    && Valid(h.arena)
    && (forall k :: 0 <= k < |h.live| ==> Inside(h.arena.chain, h.live[k]) && h.live[k].start % ALIGNMENT == 0)
    && forall i, j :: 0 <= i < j < |h.live| ==>
         h.live[i].start + Taken(h.live[i]) <= h.live[j].start || h.live[j].start + Taken(h.live[j]) <= h.live[i].start
  }

  lemma InsideGrows(s: State, size: nat, place: nat, slot: Slot)
    requires Valid(s) && MallocOk(s, size, place) && Inside(s.chain, slot)
    ensures (var (r, p) := Alloc(s, size, place);
             && Inside(r.chain, slot)
             && (slot.start + Taken(slot) <= p - SLOT || p - SLOT + Total(size) <= slot.start))
  {
    hide FirstFit, Grown, Total, Taken;
    var need := Total(size);
    var r := Alloc(s, size, place).0;
    var k :| 0 <= k < |s.chain| && s.chain[k].base <= slot.start
             && slot.start + Taken(slot) <= s.chain[k].base + s.chain[k].used;
    ReadyValid(s, need, place);
    var ready := Ready(s, need, place);
    var j := if HeadFits(s, need) then k else k + 1;
    assert r.chain == [ready.chain[0].(used := ready.chain[0].used + need)] + ready.chain[1..];
    assert ready.chain[j] == s.chain[k];
    assert All(ready)[0] == ready.chain[0] && All(ready)[j] == ready.chain[j];
    if j > 0 {
      assert Apart(All(ready)[0], All(ready)[j]);
      assert r.chain[j] == ready.chain[j];
    } else {
      assert r.chain[0].base == s.chain[0].base;
    }
  }

  lemma AllocInside(s: State, size: nat, place: nat)
    requires Valid(s) && MallocOk(s, size, place)
    ensures (var (r, p) := Alloc(s, size, place);
             Inside(r.chain, Slot(p - SLOT, Payload(size))) && (p - SLOT) % ALIGNMENT == 0)
  {
    hide FirstFit, Grown;
    var need := Total(size);
    ReadyValid(s, need, place);
    var head := Ready(s, need, place).chain[0];
    assert All(Ready(s, need, place))[0] == head;
    assert AlignUp(SLOT) == SLOT;
    var r := Alloc(s, size, place).0;
    assert r.chain[0].base == head.base && r.chain[0].used == head.used + need;
  }

  lemma AllocSafe(h: Heap, size: nat, place: nat)
    requires Safe(h) && MallocOk(h.arena, size, place)
    ensures Safe(Grant(h, size, place))
  {
    hide Alloc, MallocOk, Inside, Valid;
    AllocValid(h.arena, size, place);
    AllocInside(h.arena, size, place);
    var (arena, p) := Alloc(h.arena, size, place);
    var slot := Slot(p - SLOT, Payload(size));
    assert AlignUp(SLOT) == SLOT;
    assert Taken(slot) == Total(size);
    forall k | 0 <= k < |h.live|
      ensures Inside(arena.chain, h.live[k])
      ensures h.live[k].start + Taken(h.live[k]) <= slot.start || slot.start + Taken(slot) <= h.live[k].start
    {
      InsideGrows(h.arena, size, place, h.live[k]);
    }
  }

  /** In every run with nested marks, whatever is live stays disjoint, aligned and inside used space,
      and no mark taken before the run loses its hold. */
  lemma {:induction false} RunSafe(h: Heap, ops: seq<Op>, m: Mark)
    requires h.arena.blockSize > 0 && Safe(h) && RunOk(h, ops) && Reaches(h.arena.chain, m)
    ensures (var r := Run(h, ops);
             Safe(r) && Reaches(r.arena.chain, m) && Below(r.arena.chain, m) == Below(h.arena.chain, m))
    decreases ops, 0
  {
    hide Alloc, Rewind, Safe, Reaches, Below, TakeMark, MallocOk, Valid;
    if ops != [] {
      match ops[0] {
        case DoAlloc(size, place) =>
          SafeIsValid(h);
          AllocSafe(h, size, place);
          AllocBelow(h.arena, size, place, m);
          RunSafe(Grant(h, size, place), ops[1..], m);
        case Scope(body) =>
          ScopeRestores(h, body);
          RunSafe(Close(h, Run(h, body)), ops[1..], m);
      }
    }
  }

  lemma SafeIsValid(h: Heap)
    requires Safe(h)
    ensures Valid(h.arena)
  {
  }

  /** Rewinding restores the chain, with its used counters, exactly as it was at the mark. */
  lemma {:induction false} ScopeRestores(h: Heap, body: seq<Op>)
    requires h.arena.blockSize > 0 && Safe(h) && RunOk(h, body)
    ensures (var r := Close(h, Run(h, body));
             r.arena.chain == h.arena.chain && Safe(r))
    decreases body, 1
  {
    hide Alloc, Reaches, Below, TakeMark, MallocOk, Run, RunOk, Rewind;
    var m := TakeMark(h.arena);
    MarkHere(h.arena);
    RunSafe(h, body, m);
    var inner := Run(h, body).arena;
    RewindIs(inner, m);
    MarkUnits(h.arena);
    RewindValid(inner, m);
  }

  lemma MarkUnits(s: State)
    requires Valid(s)
    ensures TakeMark(s).used % UNIT == 0
  {
    if s.chain != [] {
      assert All(s)[0] == s.chain[0];
    }
  }

  lemma ScopeOfOne(h: Heap, size: nat, rest: seq<Op>)
    requires h.arena.blockSize > 0
    ensures Run(h, [Scope([DoAlloc(size, 0)])] + rest) ==
            Run(Close(h, Grant(h, size, 0)), rest)
  {
    hide Grant, Close;
    var ops := [Scope([DoAlloc(size, 0)])] + rest;
    assert ops[1..] == rest;
    assert Run(h, [DoAlloc(size, 0)]) == Grant(h, size, 0);
  }

  lemma OpensAndLeaves(s: State, size: nat, k: nat)
    requires s.blockSize > 0 && s.chain == [] && FirstFit(s.free, Total(size)) == k < |s.free|
    ensures Alloc(s, size, 0).1 == s.free[k].base + SLOT
    ensures Rewind(Alloc(s, size, 0).0, TakeMark(s))
        == s.(free := [Unused(s.free[k])] + (s.free[..k] + s.free[k + 1..]))
  {
    hide FirstFit, Total;
  }

  /** The arena behind a scope with one allocation in it. */
  function Visited(s: State, size: nat): State
    requires s.blockSize > 0
  {
    Rewind(Alloc(s, size, 0).0, TakeMark(s))
  }

  lemma TwoScopes(s: State, size: nat, next: nat)
    requires s.blockSize > 0
    ensures Visited(s, size).blockSize > 0
    ensures Run(Heap(s, [], []), [Scope([DoAlloc(size, 0)])] + [Scope([DoAlloc(next, 0)])]).arena ==
            Visited(Visited(s, size), next)
  {
    hide Alloc, Rewind, TakeMark;
    var h := Heap(s, [], []);
    ScopeOfOne(h, size, [Scope([DoAlloc(next, 0)])]);
    ScopeOfOne(Close(h, Grant(h, size, 0)), next, []);
    assert [Scope([DoAlloc(next, 0)])] + [] == [Scope([DoAlloc(next, 0)])];
  }

  lemma VisitTwo(x: Block, y: Block, size: nat)
    requires x.used == y.used == 0 && (x.cap >= Total(size) || y.cap >= Total(size))
    ensures (var s := State([], [x, y], MIN_BLOCK);
             && Alloc(s, size, 0).1 == (if x.cap >= Total(size) then x else y).base + SLOT
             && Visited(s, size) == if x.cap >= Total(size) then s else s.(free := [y, x]))
  {
    hide Total;
    var s := State([], [x, y], MIN_BLOCK);
    if x.cap >= Total(size) {
      OpensAndLeaves(s, size, 0);
      assert [x] + ([x, y][..0] + [x, y][1..]) == [x, y];
    } else {
      assert [x, y][1..] == [y];
      OpensAndLeaves(s, size, 1);
      assert [y] + ([x, y][..1] + [x, y][2..]) == [y, x];
    }
  }

  /** With a request that is larger than a block, nested marks give no promise about addresses: the block an
      inner scope used comes back to the front of the free list, so that the run repeated afterwards starts in
      another block. */
  lemma NestedMarksMoveAllocations()
    ensures (var s := State([], [Block(0, 65536, 0), Block(1048576, 131072, 0)], MIN_BLOCK);
             var ops := [Scope([DoAlloc(1, 0)])] + [Scope([DoAlloc(100000, 0)])];
             var r := Run(Heap(s, [], []), ops).arena;
             r.chain == s.chain && Alloc(r, 1, 0).1 != Alloc(s, 1, 0).1)
  {
    hide Alloc, Visited, Run;
    var small, big := Block(0, 65536, 0), Block(1048576, 131072, 0);
    assert Total(1) == 64 && Total(100000) == 100032;
    TwoScopes(State([], [small, big], MIN_BLOCK), 1, 100000);
    VisitTwo(small, big, 1);
    VisitTwo(small, big, 100000);
    VisitTwo(big, small, 1);
  }

  // ---------- ownership and reallocation ----------

  /** Anything a program may do to an arena short of destroying it, with marks used in any order. */
  datatype Event = Allocate(size: nat, place: nat) | RewindTo(m: Mark) | ResetAll

  function After(s: State, e: Event): (r: State)
    requires s.blockSize > 0
    ensures r.blockSize == s.blockSize
  {
    match e
    case Allocate(size, place) => Alloc(s, size, place).0
    case RewindTo(m) => Rewind(s, m)
    case ResetAll => Reset(s)
  }

  function AfterAll(s: State, es: seq<Event>): State
    requires s.blockSize > 0
    decreases |es|
  {
    if es == [] then s else AfterAll(After(s, es[0]), es[1..])
  }

  lemma {:induction false} FramesHas(bs: seq<Block>, f: (nat, nat))
    ensures f in Frames(bs) <==> exists k :: 0 <= k < |bs| && Frame(bs[k]) == f
  {
    hide Frame;
    if bs != [] {
      FramesHas(bs[1..], f);
      assert forall k :: 0 < k < |bs| ==> bs[k] == bs[1..][k - 1];
    }
  }

  predicate Covers(f: (nat, nat), p: nat) {
    f.0 <= p < f.0 + f.1
  }

  lemma WithinSome(bs: seq<Block>, p: nat)
    ensures (exists k :: 0 <= k < |bs| && Within(bs[k], p)) <==> exists f :: f in Frames(bs) && Covers(f, p)
  {
    hide Frames;
    if exists k :: 0 <= k < |bs| && Within(bs[k], p) {
      var k :| 0 <= k < |bs| && Within(bs[k], p);
      FramesHas(bs, Frame(bs[k]));
      assert Covers(Frame(bs[k]), p);
    }
    if exists f :: f in Frames(bs) && Covers(f, p) {
      var f :| f in Frames(bs) && Covers(f, p);
      FramesHas(bs, f);
    }
  }

  lemma OwnsByStock(s: State, p: nat)
    ensures Owns(s, p) <==> exists f :: f in Stock(s) && Covers(f, p)
  {
    hide Frames, Covers, Within;
    WithinSome(s.chain, p);
    WithinSome(s.free, p);
    assert forall f :: f in Stock(s) <==> f in Frames(s.chain) || f in Frames(s.free);
  }

  lemma EventStock(s: State, e: Event)
    requires s.blockSize > 0
    ensures Stock(s) <= Stock(After(s, e))
  {
    hide Stock, Alloc, Rewind, Reset;
    match e {
      case Allocate(size, place) => AllocStock(s, size, place);
      case RewindTo(m) => RewindStock(s, m);
      case ResetAll =>
        ResetIsRewind(s);
        RewindStock(s, Mark(None, 0));
    }
  }

  /** An address the arena owns stays owned, whatever happens: also when its block is recycled, and also
      when marks are rewound in the wrong order. */
  lemma {:induction false} OwnedForever(s: State, es: seq<Event>, p: nat)
    requires s.blockSize > 0 && Owns(s, p)
    ensures Owns(AfterAll(s, es), p)
    decreases |es|
  {
    hide Owns, After, Stock, Covers;
    if es != [] {
      var s1 := After(s, es[0]);
      OwnsByStock(s, p);
      OwnsByStock(s1, p);
      EventStock(s, es[0]);
      var f :| f in Stock(s) && Covers(f, p);
      assert f in Stock(s1);
      OwnedForever(s1, es[1..], p);
    }
  }

  /** Every byte of every allocation is owned, from the moment it is handed out. */
  lemma HandedOutIsOwned(s: State, size: nat, place: nat, es: seq<Event>, byte: nat)
    requires s.blockSize > 0 && byte < Payload(size)
    ensures (var (r, p) := Alloc(s, size, place);
             Owns(AfterAll(r, es), p + byte))
  {
    hide Ready, AlignUp, AfterAll;
    var (r, p) := Alloc(s, size, place);
    var ready := Ready(s, Total(size), place);
    assert AlignUp(SLOT) >= SLOT;
    assert Within(r.chain[0], p + byte);
    OwnedForever(r, es, p + byte);
  }

  /** Reallocation: a new allocation, and a copy of the part both sizes have in common. */
  function Realloc(h: Heap, k: nat, size: nat, place: nat, memory: nat -> char): (Heap, nat -> char)
    requires h.arena.blockSize > 0 && k < |h.live|
  {
    var was := h.live[k];
    var p := Alloc(h.arena, Payload(size), place).1;
    var common := if was.size < Payload(size) then was.size else Payload(size);
    (Grant(h, Payload(size), place),
     (q: nat) => if p <= q < p + common then memory(was.start + SLOT + (q - p)) else memory(q))
  }

  /** The common prefix is kept, and no byte of any live allocation changes, the old one included. */
  lemma ReallocKeeps(h: Heap, k: nat, size: nat, place: nat, memory: nat -> char, j: nat, byte: nat)
    requires h.arena.blockSize > 0 && Safe(h) && k < |h.live| && MallocOk(h.arena, Payload(size), place)
    requires j < |h.live| && byte < h.live[j].size
    ensures (var (r, copied) := Realloc(h, k, size, place, memory);
             && Safe(r) && |r.live| == |h.live| + 1
             && copied(h.live[j].start + SLOT + byte) == memory(h.live[j].start + SLOT + byte)
             && (j == k && byte < Payload(size) ==>
                   copied(r.live[|h.live|].start + SLOT + byte) == memory(h.live[k].start + SLOT + byte)))
  {
    hide Alloc, MallocOk, Inside, Valid, Safe, AlignUp;
    AllocSafe(h, Payload(size), place);
    LiveInside(h, j);
    InsideGrows(h.arena, Payload(size), place, h.live[j]);
    assert AlignUp(SLOT) >= SLOT;
  }

  lemma LiveInside(h: Heap, j: nat)
    requires Safe(h) && j < |h.live|
    ensures Valid(h.arena) && Inside(h.arena.chain, h.live[j])
  {
  }
}
