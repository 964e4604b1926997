/** Where an allocation of the arena goes, and how much it takes. */
module ArenaLaws {
  import opened ArenaModel

  function Doubled(size: nat, times: nat): nat
    decreases times
  {
    if times == 0 then size else Doubled(2 * size, times - 1)
  }

  predicate LeastDoubling(size: nat, need: nat, times: nat) {
    Doubled(size, times) >= need && (times > 0 ==> Doubled(size, times - 1) < need)
  }

  /** A new block has the default size doubled until it is enough, and not once more. */
  lemma {:induction false} GrownIsLeast(size: nat, need: nat)
    requires size > 0
    ensures exists k: nat :: Grown(size, need) == Doubled(size, k) && LeastDoubling(size, need, k)
    decreases need - size
  {
    if size < need {
      GrownIsLeast(2 * size, need);
      var k: nat :| Grown(2 * size, need) == Doubled(2 * size, k) && LeastDoubling(2 * size, need, k);
      assert k > 0 ==> Doubled(size, k) == Doubled(2 * size, k - 1);
      assert Grown(size, need) == Doubled(size, k + 1) && LeastDoubling(size, need, k + 1);
    } else {
      assert Grown(size, need) == Doubled(size, 0) && LeastDoubling(size, need, 0);
    }
  }

  /** The bytes that an allocation takes: a header of 32, and the size, 1 if it is 0, rounded up to 32. */
  lemma BytesTaken(size: nat)
    ensures (var payload := Total(size) - 32;
             && payload % 32 == 0
             && (size == 0 ==> payload == 32)
             && (size > 0 ==> size <= payload < size + 32))
  {
  }

  /** An allocation that fits exactly or with room to spare goes into the newest block, right behind what is used
      of it, and opens no block.  Otherwise the first recycled block that is large enough is opened, and `malloc` is
      asked only where there is none. */
  lemma WhereAllocationsGo(s: State, size: nat, place: nat, k: nat)
    requires s.blockSize > 0
    ensures s.chain != [] && s.chain[0].used + Total(size) <= s.chain[0].cap ==>
              && Alloc(s, size, place).1 == s.chain[0].base + s.chain[0].used + 32
              && Alloc(s, size, place).0
                 == s.(chain := [s.chain[0].(used := s.chain[0].used + Total(size))] + s.chain[1..])
    ensures (s.chain == [] || s.chain[0].used + Total(size) > s.chain[0].cap)
            && k < |s.free| && s.free[k].cap >= Total(size)
            && (forall j :: 0 <= j < k ==> s.free[j].cap < Total(size)) ==>
              && Alloc(s, size, place).1 == s.free[k].base + 32
              && Alloc(s, size, place).0
                 == s.(chain := [s.free[k].(used := Total(size))] + s.chain, free := s.free[..k] + s.free[k + 1..])
    ensures (s.chain == [] || s.chain[0].used + Total(size) > s.chain[0].cap)
            && (forall j :: 0 <= j < |s.free| ==> s.free[j].cap < Total(size)) ==>
              && Alloc(s, size, place).1 == place + 32
              && Alloc(s, size, place).0
                 == s.(chain := [Block(place, Grown(s.blockSize, Total(size)), Total(size))] + s.chain)
  {
    hide Total, Grown;
  }
}
