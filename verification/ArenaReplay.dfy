/** Replay: a run of allocations with nested marks, repeated behind its rewind, gets the same addresses, as long
    as what comes behind a nested scope takes recycled blocks in their order. */
module ArenaReplay {
  import opened Common
  import opened ArenaModel
  import opened ArenaProps

  // ---------- what a rewind leaves in the free list ----------

  /** Blocks above the mark and recycled blocks together. */
  function Stack(s: State, m: Mark): seq<Block> {
    Spare(s.chain, m) + s.free
  }

  /** The free list once a run has been rewound: the blocks opened outside its scopes, in the order they were
      opened in, and behind them what the run has left there. */
  function Returned(h: Heap, ops: seq<Op>): seq<Block>
    requires h.arena.blockSize > 0
    decreases ops
  {
    if ops == [] then h.arena.free
    else
      match ops[0]
      case DoAlloc(size, place) => OpenedBy(h.arena, size, place) + Returned(Grant(h, size, place), ops[1..])
      case Scope(body) => Returned(Close(h, Run(h, body)), ops[1..])
  }

  function OpenedBy(s: State, size: nat, place: nat): seq<Block>
    requires s.blockSize > 0
  {
    if HeadFits(s, Total(size)) then [] else [NextBlock(s, Total(size), place)]
  }

  lemma Concat<T>(a: seq<T>, b: seq<T>, c: seq<T>)
    ensures (a + b) + c == a + (b + c)
  {
  }

  lemma AllocSpares(s: State, size: nat, place: nat, m: Mark)
    requires Valid(s) && MallocOk(s, size, place) && Reaches(s.chain, m)
    ensures (var r := Alloc(s, size, place).0;
             Reaches(r.chain, m) && Spare(r.chain, m) == Spare(s.chain, m) + OpenedBy(s, size, place))
  {
    hide Alloc, Total, Reaches, Valid, MallocOk, HeadFits, NextBlock, Spare;
    AllocBelow(s, size, place, m);
  }

  lemma {:induction false} RewindReturns(h: Heap, ops: seq<Op>, m: Mark)
    requires h.arena.blockSize > 0 && Safe(h) && RunOk(h, ops) && Reaches(h.arena.chain, m)
    ensures Stack(Run(h, ops).arena, m) == Spare(h.arena.chain, m) + Returned(h, ops)
    decreases ops
  {
    hide Alloc, Rewind, Safe, Reaches, Below, Spare, TakeMark, MallocOk, Valid, Total, OpenedBy, Inside;
    if ops != [] {
      match ops[0] {
        case DoAlloc(size, place) =>
          SafeIsValid(h);
          AllocSafe(h, size, place);
          AllocSpares(h.arena, size, place, m);
          RewindReturns(Grant(h, size, place), ops[1..], m);
          Concat(Spare(h.arena.chain, m), OpenedBy(h.arena, size, place), Returned(Grant(h, size, place), ops[1..]));
        case Scope(body) =>
          ScopeRestores(h, body);
          RewindReturns(Close(h, Run(h, body)), ops[1..], m);
      }
    }
  }

  /** Rewinding a whole run. */
  lemma CloseReturns(h: Heap, ops: seq<Op>)
    requires h.arena.blockSize > 0 && Safe(h) && RunOk(h, ops)
    ensures (var r := Close(h, Run(h, ops));
             && Safe(r) && r.arena.chain == h.arena.chain && r.arena.free == Returned(h, ops)
             && r.arena.blockSize == h.arena.blockSize)
    ensures Stack(Run(h, ops).arena, TakeMark(h.arena)) == Returned(h, ops)
  {
    hide Reaches, Below, Spare, TakeMark, Run, RunOk, Rewind, Safe, Returned;
    var m := TakeMark(h.arena);
    MarkHere(h.arena);
    RewindReturns(h, ops, m);
    ScopeRestores(h, ops);
    RewindIs(Run(h, ops).arena, m);
    assert [] + Returned(h, ops) == Returned(h, ops);
  }

  // ---------- runs that take recycled blocks in their order ----------

  /** The same requests and scopes, whatever `malloc` would answer. */
  predicate Alike(ops: seq<Op>, again: seq<Op>)
    decreases ops
  {
    if ops == [] then again == []
    else
      && again != []
      && Alike(ops[1..], again[1..])
      && match ops[0]
         case DoAlloc(size, _) => again[0].DoAlloc? && again[0].size == size
         case Scope(body) => again[0].Scope? && Alike(body, again[0].body)
  }

  /** Whether some allocation of a run finds no room in the head block. */
  predicate Opens(h: Heap, ops: seq<Op>)
    requires h.arena.blockSize > 0
    decreases ops
  {
    ops != [] &&
    match ops[0]
    case DoAlloc(size, place) => !HeadFits(h.arena, Total(size)) || Opens(Grant(h, size, place), ops[1..])
    case Scope(body) => Opens(h, body) || Opens(Close(h, Run(h, body)), ops[1..])
  }

  /** Behind a nested scope that has opened blocks, the run takes recycled blocks from the front of the free list. */
  predicate Orderly(h: Heap, ops: seq<Op>)
    requires h.arena.blockSize > 0
    decreases ops
  {
    ops == [] ||
    match ops[0]
    case DoAlloc(size, place) => Orderly(Grant(h, size, place), ops[1..])
    case Scope(body) =>
      var next := Close(h, Run(h, body));
      && Orderly(h, body) && Orderly(next, ops[1..])
      && (Opens(h, body) ==> next.arena.free <= Returned(next, ops[1..]))
  }

  // ---------- replay ----------

  function WithFree(h: Heap, free: seq<Block>): (r: Heap)
    ensures r.arena.blockSize == h.arena.blockSize
  {
    h.(arena := h.arena.(free := free))
  }

  lemma AllocSame(s: State, s': State, size: nat, place: nat, place': nat, free: seq<Block>)
    requires s.blockSize > 0 && s'.chain == s.chain && s'.blockSize == s.blockSize
    requires s'.free == if HeadFits(s, Total(size)) then free else [NextBlock(s, Total(size), place)] + free
    ensures (var (r, p) := Alloc(s, size, place);
             Alloc(s', size, place') == (r.(free := free), p))
  {
    hide Total, Grown, HeadFits, NextBlock, FirstFit;
    var need := Total(size);
    assert HeadFits(s', need) == HeadFits(s, need) by {
      SameHead(s, s', need);
    }
    if !HeadFits(s, need) {
      FirstTaken(s', need, place', NextBlock(s, need, place), free);
      FittingBlock(s, need, place);
    }
  }

  lemma SameHead(s: State, s': State, need: nat)
    requires s'.chain == s.chain
    ensures HeadFits(s', need) <==> HeadFits(s, need)
  {
  }

  lemma FittingBlock(s: State, need: nat, place: nat)
    requires s.blockSize > 0
    ensures NextBlock(s, need, place).cap >= need && NextBlock(s, need, place).used == 0
  {
  }

  lemma FirstTaken(s: State, need: nat, place: nat, b: Block, free: seq<Block>)
    requires s.blockSize > 0 && s.free == [b] + free && b.cap >= need && b.used == 0
    ensures NextBlock(s, need, place) == b && FirstFit(s.free, need) == 0
    ensures s.free[..0] + s.free[1..] == free
  {
  }

  lemma GrantAgain(h: Heap, size: nat, place: nat, place': nat, free: seq<Block>)
    requires h.arena.blockSize > 0
    ensures Grant(WithFree(h, OpenedBy(h.arena, size, place) + free), size, place')
         == WithFree(Grant(h, size, place), free)
  {
    hide Total, HeadFits, NextBlock, Alloc;
    assert [] + free == free;
    AllocSame(h.arena, h.arena.(free := OpenedBy(h.arena, size, place) + free), size, place, place', free);
  }

  /** Rewinding does not look at the free list. */
  lemma CloseAgain(h: Heap, inner: Heap, free: seq<Block>, after: seq<Block>)
    ensures (var r := Close(h, inner);
             Close(WithFree(h, free), WithFree(inner, after))
               == WithFree(r, Spare(inner.arena.chain, TakeMark(h.arena)) + after))
  {
    hide Rewind, Spare;
    RewindIs(inner.arena, TakeMark(h.arena));
    RewindIs(inner.arena.(free := after), TakeMark(h.arena));
  }

  /** A run that opens no block does not look at the free list either. */
  lemma {:induction false} QuietRun(h: Heap, ops: seq<Op>, again: seq<Op>, free: seq<Block>)
    requires h.arena.blockSize > 0 && Safe(h) && RunOk(h, ops) && !Opens(h, ops) && Alike(ops, again)
    ensures Run(WithFree(h, free), again) == WithFree(Run(h, ops), free)
    ensures Returned(h, ops) == h.arena.free == Run(h, ops).arena.free
    decreases ops
  {
    hide Total, WithFree, Grant, Close, Safe, MallocOk, Alloc, TakeMark, Spare, Stack;
    if ops == [] {
      SameFree(h, free);
    } else {
      match ops[0] {
        case DoAlloc(size, place) =>
          SafeIsValid(h);
          AllocSafe(h, size, place);
          QuietGrant(h, size, place, again[0].place, free);
          QuietRun(Grant(h, size, place), ops[1..], again[1..], free);
          assert [] + h.arena.free == h.arena.free;
        case Scope(body) =>
          var inner := Run(h, body);
          QuietRun(h, body, again[0].body, free);
          QuietClose(h, body, free);
          QuietRun(Close(h, inner), ops[1..], again[1..], free);
      }
    }
  }

  lemma SameFree(h: Heap, free: seq<Block>)
    ensures WithFree(h, free).arena.free == free
  {
  }

  lemma QuietGrant(h: Heap, size: nat, place: nat, place': nat, free: seq<Block>)
    requires h.arena.blockSize > 0 && HeadFits(h.arena, Total(size))
    ensures Grant(WithFree(h, free), size, place') == WithFree(Grant(h, size, place), free)
    ensures Grant(h, size, place).arena.free == h.arena.free && OpenedBy(h.arena, size, place) == []
  {
    hide Total;
    assert [] + free == free;
    GrantAgain(h, size, place, place', free);
  }

  lemma QuietClose(h: Heap, body: seq<Op>, free: seq<Block>)
    requires h.arena.blockSize > 0 && Safe(h) && RunOk(h, body)
    requires Returned(h, body) == h.arena.free == Run(h, body).arena.free
    ensures (var r := Close(h, Run(h, body));
             && Safe(r) && r.arena.blockSize > 0 && r.arena.free == h.arena.free
             && Close(WithFree(h, free), WithFree(Run(h, body), free)) == WithFree(r, free))
  {
    hide Run, RunOk, Safe, Returned, Spare, TakeMark, Close, WithFree;
    CloseReturns(h, body);
    var spare := Spare(Run(h, body).arena.chain, TakeMark(h.arena));
    assert |spare| == 0;
    assert spare + free == free;
    CloseAgain(h, Run(h, body), free, free);
  }

  /** With the free list that its rewind leaves, a run is the same again. */
  lemma {:induction false} RunAgain(h: Heap, ops: seq<Op>, again: seq<Op>, below: seq<Block>)
    requires h.arena.blockSize > 0 && Safe(h) && RunOk(h, ops) && Orderly(h, ops) && Alike(ops, again)
    ensures (var r := Run(h, ops);
             Run(WithFree(h, Returned(h, ops) + below), again) == WithFree(r, r.arena.free + below))
    decreases ops, 0
  {
    hide Total, WithFree, Grant, Close, OpenedBy, Safe, MallocOk, TakeMark, Spare, Stack, Opens;
    if ops != [] {
      match ops[0] {
        case DoAlloc(size, place) =>
          var next := Returned(Grant(h, size, place), ops[1..]);
          AllocSafe(h, size, place);
          Concat(OpenedBy(h.arena, size, place), next, below);
          GrantAgain(h, size, place, again[0].place, next + below);
          RunAgain(Grant(h, size, place), ops[1..], again[1..], below);
        case Scope(body) =>
          ScopeAgain(h, body, again[0].body, ops[1..], below);
          CloseReturns(h, body);
          RunAgain(Close(h, Run(h, body)), ops[1..], again[1..], below);
      }
    }
  }

  lemma {:induction false} ScopeAgain(h: Heap, body: seq<Op>, again: seq<Op>, rest: seq<Op>, below: seq<Block>)
    requires h.arena.blockSize > 0 && Safe(h) && RunOk(h, body) && Orderly(h, body) && Alike(body, again)
    requires (var next := Close(h, Run(h, body));
              Opens(h, body) ==> next.arena.free <= Returned(next, rest))
    ensures (var next := Close(h, Run(h, body));
             var free := Returned(next, rest) + below;
             Close(WithFree(h, free), Run(WithFree(h, free), again)) == WithFree(next, free))
    decreases body, 1
  {
    hide Total, WithFree, Grant, Close, OpenedBy, Safe, MallocOk, TakeMark, Spare;
    hide Opens, Orderly, Alike, RunOk, Run, Returned;
    var inner := Run(h, body);
    var next := Close(h, inner);
    var free := Returned(next, rest) + below;
    CloseReturns(h, body);
    if Opens(h, body) {
      var more := Returned(next, rest)[|next.arena.free|..] + below;
      assert free == Returned(h, body) + more;
      RunAgain(h, body, again, more);
      CloseAgain(h, inner, free, inner.arena.free + more);
      Concat(Spare(inner.arena.chain, TakeMark(h.arena)), inner.arena.free, more);
    } else {
      QuietRun(h, body, again, free);
      QuietClose(h, body, free);
    }
  }

  /** Repeating an orderly run after rewinding it hands out the same addresses and leaves the very same arena: no
      new block is made, whatever `malloc` would answer the second time. */
  lemma ReplayAfterRewind(h: Heap, ops: seq<Op>, again: seq<Op>)
    requires h.arena.blockSize > 0 && Safe(h) && RunOk(h, ops) && Orderly(h, ops) && Alike(ops, again)
    ensures (var r := Run(h, ops);
             Run(Heap(Rewind(r.arena, TakeMark(h.arena)), h.live, h.answers), again) == r)
  {
    hide Run, RunOk, Rewind, Orderly, Alike, Returned, Safe;
    var r := Run(h, ops);
    CloseReturns(h, ops);
    RunAgain(h, ops, again, []);
    assert Returned(h, ops) + [] == Returned(h, ops) && r.arena.free + [] == r.arena.free;
    RewindIs(r.arena, TakeMark(h.arena));
    assert Heap(Rewind(r.arena, TakeMark(h.arena)), h.live, h.answers) == WithFree(h, Returned(h, ops));
  }

  /** The same after a reset, for a run that began with nothing allocated. */
  lemma ReplayAfterReset(h: Heap, ops: seq<Op>, again: seq<Op>)
    requires h.arena.blockSize > 0 && Safe(h) && RunOk(h, ops) && Orderly(h, ops) && Alike(ops, again)
    requires h.arena.chain == []
    ensures (var r := Run(h, ops);
             Run(Heap(Reset(r.arena), h.live, h.answers), again) == r)
  {
    hide Run, RunOk, Orderly, Alike, Safe;
    ResetIsRewind(Run(h, ops).arena);
    ReplayAfterRewind(h, ops, again);
  }

  // ---------- runs that are orderly ----------

  /** A run without nested marks is orderly, however large its requests are. */
  lemma {:induction false} FlatIsOrderly(h: Heap, ops: seq<Op>)
    requires h.arena.blockSize > 0 && forall k :: 0 <= k < |ops| ==> ops[k].DoAlloc?
    ensures Orderly(h, ops)
    decreases |ops|
  {
    hide Grant;
    if ops != [] {
      FlatIsOrderly(Grant(h, ops[0].size, ops[0].place), ops[1..]);
    }
  }

  // ---------- every arena there can be ----------

  /** No block is smaller than the default size, and recycled blocks are empty. */
  predicate Stocked(s: State) {
    && s.blockSize > 0
    && (forall k :: 0 <= k < |s.chain| ==> s.chain[k].cap >= s.blockSize)
    && forall k :: 0 <= k < |s.free| ==> s.free[k].cap >= s.blockSize && s.free[k].used == 0
  }

  lemma AllocStocked(s: State, size: nat, place: nat)
    requires Stocked(s)
    ensures Stocked(Alloc(s, size, place).0)
  {
    hide FirstFit, Grown, Total;
    var ready := Ready(s, Total(size), place);
    var k := FirstFit(s.free, Total(size));
    assert forall i :: 0 < i < |ready.chain| && !HeadFits(s, Total(size)) ==> ready.chain[i] == s.chain[i - 1];
    if !HeadFits(s, Total(size)) && k < |s.free| {
      forall i | 0 <= i < |ready.free| ensures ready.free[i] == s.free[if i < k then i else i + 1] {
      }
    }
    var r := Alloc(s, size, place).0;
    assert forall i :: 0 < i < |r.chain| ==> r.chain[i] == ready.chain[i];
    assert r.chain[0].cap == ready.chain[0].cap;
  }

  lemma {:induction false} RewindStocked(s: State, m: Mark)
    requires Stocked(s)
    ensures Stocked(Rewind(s, m))
    decreases |s.chain|
  {
    if s.chain != [] && m.block != Some(s.chain[0].base) {
      RewindStocked(s.(chain := s.chain[1..], free := [Unused(s.chain[0])] + s.free), m);
    }
  }

  /** Whatever has been done to an arena since it was made. */
  lemma {:induction false} AlwaysStocked(s: State, es: seq<Event>)
    requires Stocked(s)
    ensures Stocked(AfterAll(s, es))
    decreases |es|
  {
    hide Stocked, Alloc, Rewind, Reset;
    if es != [] {
      BlockSizePositive(s);
      match es[0] {
        case Allocate(size, place) => AllocStocked(s, size, place);
        case RewindTo(m) => RewindStocked(s, m);
        case ResetAll =>
          ResetIsRewind(s);
          RewindStocked(s, Mark(None, 0));
      }
      AlwaysStocked(After(s, es[0]), es[1..]);
    }
  }

  lemma BlockSizePositive(s: State)
    requires Stocked(s)
    ensures s.blockSize > 0
  {
  }

  // ---------- what a run takes from `malloc` ----------

  /** Every request fits into a block of the given size. */
  predicate Fits(ops: seq<Op>, blockSize: nat)
    decreases ops
  {
    ops == [] ||
    (match ops[0]
     case DoAlloc(size, _) => Total(size) <= blockSize && Fits(ops[1..], blockSize)
     case Scope(body) => Fits(body, blockSize) && Fits(ops[1..], blockSize))
  }

  /** The new blocks of a run, in order. */
  function NewBlocks(h: Heap, ops: seq<Op>): seq<Block>
    requires h.arena.blockSize > 0
    decreases ops
  {
    if ops == [] then []
    else
      match ops[0]
      case DoAlloc(size, place) => NewOne(h.arena, size, place) + NewBlocks(Grant(h, size, place), ops[1..])
      case Scope(body) => NewBlocks(h, body) + NewBlocks(Close(h, Run(h, body)), ops[1..])
  }

  function NewOne(s: State, size: nat, place: nat): seq<Block>
    requires s.blockSize > 0
  {
    if NeedsNew(s, size) then [NextBlock(s, Total(size), place)] else []
  }

  /** With fitting requests an allocation that the head has no room for takes the first recycled block. */
  lemma FirstIsFit(s: State, size: nat)
    requires Stocked(s) && Total(size) <= s.blockSize
    ensures FirstFit(s.free, Total(size)) == 0
    ensures NeedsNew(s, size) <==> !HeadFits(s, Total(size)) && s.free == []
  {
    hide Total;
  }

  lemma AllocFree(s: State, size: nat, place: nat)
    requires Stocked(s) && Total(size) <= s.blockSize
    ensures (var r := Alloc(s, size, place).0;
             if HeadFits(s, Total(size)) || s.free == [] then r.free == s.free
             else r.free == s.free[1..] && NextBlock(s, Total(size), place) == s.free[0])
  {
    hide Total, FirstFit, Grown;
    FirstIsFit(s, size);
    if s.free != [] {
      assert s.free[..0] + s.free[1..] == s.free[1..];
    }
  }

  lemma AllocStack(s: State, size: nat, place: nat, m: Mark)
    requires Valid(s) && MallocOk(s, size, place) && Reaches(s.chain, m)
    requires Stocked(s) && Total(size) <= s.blockSize
    ensures Stack(Alloc(s, size, place).0, m) == Stack(s, m) + NewOne(s, size, place)
  {
    hide FirstFit, Grown, Total, Reaches, Valid, MallocOk, Alloc, HeadFits, Spare, NextBlock, Stocked;
    AllocBelow(s, size, place, m);
    FirstIsFit(s, size);
    AllocFree(s, size, place);
    var spare := Spare(s.chain, m);
    var b := NextBlock(s, Total(size), place);
    assert spare + [] == spare && Stack(s, m) + [] == Stack(s, m);
    if s.free == [] {
      assert (spare + [b]) + [] == (spare + []) + [b];
    } else {
      assert (spare + [s.free[0]]) + s.free[1..] == spare + s.free;
    }
  }

  /** A run only adds new blocks at the bottom of the stack. */
  lemma {:induction false} RunStack(h: Heap, ops: seq<Op>, m: Mark)
    requires h.arena.blockSize > 0 && Safe(h) && RunOk(h, ops) && Reaches(h.arena.chain, m)
    requires Stocked(h.arena) && Fits(ops, h.arena.blockSize)
    ensures (var r := Run(h, ops);
             Stocked(r.arena) && Stack(r.arena, m) == Stack(h.arena, m) + NewBlocks(h, ops))
    decreases ops, 0
  {
    hide Alloc, Rewind, Safe, Reaches, Below, TakeMark, MallocOk, Valid, Stocked, Stack, Total, NewOne;
    var stack := Stack(h.arena, m);
    if ops == [] {
      assert stack + [] == stack;
    } else {
      match ops[0] {
        case DoAlloc(size, place) =>
          SafeIsValid(h);
          AllocSafe(h, size, place);
          AllocBelow(h.arena, size, place, m);
          AllocStocked(h.arena, size, place);
          AllocStack(h.arena, size, place, m);
          RunStack(Grant(h, size, place), ops[1..], m);
          Concat(stack, NewOne(h.arena, size, place), NewBlocks(Grant(h, size, place), ops[1..]));
        case Scope(body) =>
          ScopeRestores(h, body);
          ScopeStack(h, body, m);
          RunStack(Close(h, Run(h, body)), ops[1..], m);
          Concat(stack, NewBlocks(h, body), NewBlocks(Close(h, Run(h, body)), ops[1..]));
      }
    }
  }

  /** A scope leaves the chain, and the free list with its new blocks at the end. */
  lemma {:induction false} ScopeStack(h: Heap, body: seq<Op>, m: Mark)
    requires h.arena.blockSize > 0 && Safe(h) && RunOk(h, body)
    requires Stocked(h.arena) && Fits(body, h.arena.blockSize)
    ensures (var r := Close(h, Run(h, body)).arena;
             && Stocked(r) && r.chain == h.arena.chain && r.free == h.arena.free + NewBlocks(h, body)
             && Stack(r, m) == Stack(h.arena, m) + NewBlocks(h, body))
    decreases body, 1
  {
    hide Reaches, Below, Spare, TakeMark, Run, RunOk, Rewind, Stocked, Fits, NewBlocks, Safe;
    var mark := TakeMark(h.arena);
    MarkHere(h.arena);
    RunStack(h, body, mark);
    ScopeRestores(h, body);
    var inner := Run(h, body).arena;
    RewindIs(inner, mark);
    RewindStocked(inner, mark);
    assert [] + h.arena.free == h.arena.free;
    Concat(Spare(h.arena.chain, m), h.arena.free, NewBlocks(h, body));
  }

  /** A run with nested marks is orderly if every request fits into a block of the default size. */
  lemma {:induction false} FittingIsOrderly(h: Heap, ops: seq<Op>)
    requires h.arena.blockSize > 0 && Safe(h) && RunOk(h, ops)
    requires Stocked(h.arena) && Fits(ops, h.arena.blockSize)
    ensures Orderly(h, ops)
    decreases ops
  {
    hide Safe, Stocked, Total, Grant, Close, Returned, MallocOk, Opens;
    if ops != [] {
      match ops[0] {
        case DoAlloc(size, place) =>
          AllocSafe(h, size, place);
          GrantStocked(h, size, place);
          FittingIsOrderly(Grant(h, size, place), ops[1..]);
        case Scope(body) =>
          var next := Close(h, Run(h, body));
          FittingIsOrderly(h, body);
          CloseReturns(h, body);
          CloseStocked(h, body);
          FittingIsOrderly(next, ops[1..]);
          FittingInLine(next, ops[1..]);
      }
    }
  }

  lemma GrantStocked(h: Heap, size: nat, place: nat)
    requires Stocked(h.arena)
    ensures h.arena.blockSize > 0 && Stocked(Grant(h, size, place).arena)
  {
    AllocStocked(h.arena, size, place);
  }

  lemma CloseStocked(h: Heap, body: seq<Op>)
    requires h.arena.blockSize > 0 && Safe(h) && RunOk(h, body)
    requires Stocked(h.arena) && Fits(body, h.arena.blockSize)
    ensures Stocked(Close(h, Run(h, body)).arena)
  {
    hide Run, RunOk, Safe, Stocked, Fits, Rewind;
    ScopeStack(h, body, TakeMark(h.arena));
  }

  lemma FittingInLine(h: Heap, ops: seq<Op>)
    requires h.arena.blockSize > 0 && Safe(h) && RunOk(h, ops)
    requires Stocked(h.arena) && Fits(ops, h.arena.blockSize)
    ensures h.arena.free <= Returned(h, ops)
  {
    hide Run, RunOk, Safe, Stocked, Fits, Returned, Close, NewBlocks;
    CloseReturns(h, ops);
    ScopeStack(h, ops, TakeMark(h.arena));
  }
}
