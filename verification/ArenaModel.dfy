/** The bump arena: blocks filled from the front, marks and rewinds, and recycled blocks. */
module ArenaModel {
  import opened Common

  /** Sizes of the platform with 64-bit pointers: `sizeof(max_align_t)`, which the allocator rounds to,
      the header slot, and the alignment `malloc` gives the data of a block. */
  const UNIT: nat := 32
  const SLOT: nat := 32
  const ALIGNMENT: nat := 16
  const MIN_BLOCK: nat := 64 * 1024

  function AlignUp(value: nat): (r: nat)
    ensures r % UNIT == 0 && value <= r < value + UNIT
  {
    (value + UNIT - 1) / UNIT * UNIT
  }

  function Payload(size: nat): nat {
    if size == 0 then 1 else size
  }

  /** The bytes an allocation takes up, header included. */
  function Total(size: nat): (t: nat)
    ensures t % UNIT == 0 && t >= SLOT + Payload(size)
  {
    AlignUp(SLOT) + AlignUp(Payload(size))
  }

  /** `base` is the address of the data of the block. */
  datatype Block = Block(base: nat, cap: nat, used: nat)

  /** Newest block first. */
  datatype State = State(chain: seq<Block>, free: seq<Block>, blockSize: nat)

  datatype Mark = Mark(block: Option<nat>, used: nat)

  function Unused(b: Block): Block {
    b.(used := 0)
  }

  // ---------- operations ----------

  function FirstFit(free: seq<Block>, need: nat): (k: nat)
    ensures k <= |free|
    ensures k < |free| ==> free[k].cap >= need
    ensures forall j :: 0 <= j < k ==> free[j].cap < need
  {
    if free == [] || free[0].cap >= need then 0 else 1 + FirstFit(free[1..], need)
  }

  /** The default block size, doubled until it is enough. */
  function Grown(size: nat, need: nat): (cap: nat)
    requires size > 0
    ensures cap >= need && cap >= size
    decreases need - size
  {
    if size < need then Grown(2 * size, need) else size
  }

  /** The block an allocation of `need` bytes opens; `place` is where `malloc` would put a new one. */
  function NextBlock(s: State, need: nat, place: nat): (b: Block)
    requires s.blockSize > 0
    ensures b.cap >= need && b.used == 0
  {
    var k := FirstFit(s.free, need);
    if k < |s.free| then Unused(s.free[k]) else Block(place, Grown(s.blockSize, need), 0)
  }

  predicate HeadFits(s: State, need: nat) {
    s.chain != [] && s.chain[0].used + need <= s.chain[0].cap
  }

  /** The arena once its head block has room. */
  function Ready(s: State, need: nat, place: nat): (r: State)
    requires s.blockSize > 0
    ensures HeadFits(r, need)
    ensures r.blockSize == s.blockSize
  {
    if HeadFits(s, need) then s
    else
      var k := FirstFit(s.free, need);
      s.(chain := [NextBlock(s, need, place)] + s.chain,
         free := if k < |s.free| then s.free[..k] + s.free[k + 1..] else s.free)
  }

  /** The new arena and the address handed out. */
  function Alloc(s: State, size: nat, place: nat): (r: (State, nat))
    requires s.blockSize > 0
    ensures r.0.blockSize == s.blockSize && r.1 >= SLOT
  {
    var ready := Ready(s, Total(size), place);
    var head := ready.chain[0];
    (ready.(chain := [head.(used := head.used + Total(size))] + ready.chain[1..]),
     head.base + head.used + SLOT)
  }

  function TakeMark(s: State): Mark {
    if s.chain == [] then Mark(None, 0) else Mark(Some(s.chain[0].base), s.chain[0].used)
  }

  function Rewind(s: State, m: Mark): (r: State)
    ensures r.blockSize == s.blockSize
    decreases |s.chain|
  {
    if s.chain == [] then s
    else if m.block == Some(s.chain[0].base) then
      if m.used <= s.chain[0].used then s.(chain := [s.chain[0].(used := m.used)] + s.chain[1..]) else s
    else Rewind(s.(chain := s.chain[1..], free := [Unused(s.chain[0])] + s.free), m)
  }

  function Reset(s: State): (r: State)
    ensures r.blockSize == s.blockSize
    decreases |s.chain|
  {
    if s.chain == [] then s
    else Reset(s.(chain := s.chain[1..], free := [Unused(s.chain[0])] + s.free))
  }

  predicate Within(b: Block, p: nat) {
    b.base <= p < b.base + b.cap
  }

  /** Whether an address belongs to the arena, wherever its block is now. */
  predicate Owns(s: State, p: nat) {
    (exists k :: 0 <= k < |s.chain| && Within(s.chain[k], p)) || (exists k :: 0 <= k < |s.free| && Within(s.free[k], p))
  }

  // ---------- well-formed arenas ----------

  predicate BlockOk(b: Block) {
    b.base % ALIGNMENT == 0 && b.used <= b.cap && b.used % UNIT == 0 && b.cap > 0
  }

  predicate Apart(a: Block, b: Block) {
    a.base + a.cap <= b.base || b.base + b.cap <= a.base
  }

  function All(s: State): seq<Block> {
    s.chain + s.free
  }

  /** No block is in the arena twice, and no two blocks overlap. */
  predicate Valid(s: State): (valid: bool)
    ensures valid ==> s.blockSize > 0
  {
    && s.blockSize >= MIN_BLOCK
    && (forall k :: 0 <= k < |All(s)| ==> BlockOk(All(s)[k]))
    && forall i, j :: 0 <= i < j < |All(s)| ==> Apart(All(s)[i], All(s)[j])
  }

  /** What `malloc` promises of a new block. */
  predicate NewAt(s: State, cap: nat, place: nat) {
    place % ALIGNMENT == 0 && forall k :: 0 <= k < |All(s)| ==> Apart(All(s)[k], Block(place, cap, 0))
  }

  /** The place for a new block, where one is needed, is a good one. */
  predicate MallocOk(s: State, size: nat, place: nat) {
    s.blockSize > 0 &&
    (!HeadFits(s, Total(size)) && FirstFit(s.free, Total(size)) == |s.free| ==>
       NewAt(s, Grown(s.blockSize, Total(size)), place))
  }

  /** Base and capacity: what never changes about a block. */
  function Frame(b: Block): (nat, nat) {
    (b.base, b.cap)
  }

  ghost function Frames(bs: seq<Block>): multiset<(nat, nat)> {
    if bs == [] then multiset{} else multiset{Frame(bs[0])} + Frames(bs[1..])
  }

  /** The blocks of the arena, wherever they are. */
  ghost function Stock(s: State): multiset<(nat, nat)> {
    Frames(s.chain) + Frames(s.free)
  }
}
