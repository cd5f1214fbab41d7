/** The memory of the bulk pool allocator: blocks from malloc, the slots carved out of them, and the two
    lists threaded through their words. */
module PoolLayout {

  const WORD_BYTES: nat := 8

  /** Alignment and aligned size of the objects; neither is smaller than a pointer. */
  datatype Shape = Shape(alignment: nat, size: nat)

  ghost predicate GoodShape(g: Shape) {
    g.alignment >= WORD_BYTES && g.size >= WORD_BYTES
  }

  /** A block: its address, its bytes, and how many slots follow its link word. */
  datatype Block = Block(at: nat, bytes: nat, count: nat)

  // ----- slots -----

  function SlotAt(first: nat, i: nat, size: nat): (s: nat)
    decreases i
  {
    if i == 0 then first else SlotAt(first + size, i - 1, size)
  }

  lemma {:induction false} SlotIsProduct(first: nat, i: nat, size: nat)
    ensures SlotAt(first, i, size) == first + i * size
    decreases i
  {
    if i != 0 {
      SlotIsProduct(first + size, i - 1, size);
      assert size + (i - 1) * size == i * size;
    }
  }

  lemma {:induction false} SlotOrder(first: nat, i: nat, j: nat, size: nat)
    requires i < j
    ensures SlotAt(first, i, size) + size <= SlotAt(first, j, size)
    ensures j == i + 1 ==> SlotAt(first, i, size) + size == SlotAt(first, j, size)
    decreases i
  {
    if i == 0 {
      SlotIsProduct(first + size, j - 1, size);
    } else {
      SlotOrder(first + size, i - 1, j - 1, size);
    }
  }

  function First(g: Shape, b: Block): (s: nat) {
    b.at + g.alignment
  }

  ghost predicate IsSlotOf(g: Shape, b: Block, s: nat) {
    exists i :: 0 <= i < b.count && s == SlotAt(First(g, b), i, g.size)
  }

  ghost predicate IsSlot(g: Shape, blocks: seq<Block>, s: nat) {
    exists k :: 0 <= k < |blocks| && IsSlotOf(g, blocks[k], s)
  }

  ghost predicate GoodBlock(g: Shape, b: Block) {
    b.at > 0 && b.count >= 1 && SlotAt(First(g, b), b.count, g.size) <= b.at + b.bytes
  }

  /** What malloc promises of the blocks it has given out. */
  ghost predicate SizesApart(sizes: map<nat, nat>) {
    forall p, q :: p in sizes && q in sizes && p < q ==> p + sizes[p] <= q
  }

  ghost predicate GoodBlocks(g: Shape, sizes: map<nat, nat>, blocks: seq<Block>) {
    && SizesApart(sizes)
    && (forall k :: 0 <= k < |blocks| ==>
         GoodBlock(g, blocks[k]) && blocks[k].at in sizes && blocks[k].bytes <= sizes[blocks[k].at])
    && (forall j, k :: 0 <= j < k < |blocks| ==> blocks[j].at != blocks[k].at)
  }

  lemma {:induction false} SlotInBlock(g: Shape, b: Block, s: nat)
    requires GoodBlock(g, b) && IsSlotOf(g, b, s)
    ensures b.at + g.alignment <= s && s + g.size <= b.at + b.bytes
  {
    var i :| 0 <= i < b.count && s == SlotAt(First(g, b), i, g.size);
    SlotOrder(First(g, b), i, b.count, g.size);
    if i != 0 {
      SlotOrder(First(g, b), 0, i, g.size);
    }
  }

  /** Two slots never overlap. */
  lemma {:induction false} SlotsApart(g: Shape, sizes: map<nat, nat>, blocks: seq<Block>, s: nat, t: nat)
    requires GoodBlocks(g, sizes, blocks) && IsSlot(g, blocks, s) && IsSlot(g, blocks, t) && s < t
    ensures s + g.size <= t
  {
    var j :| 0 <= j < |blocks| && IsSlotOf(g, blocks[j], s);
    var k :| 0 <= k < |blocks| && IsSlotOf(g, blocks[k], t);
    if j == k {
      var first := First(g, blocks[j]);
      var i :| 0 <= i < blocks[j].count && s == SlotAt(first, i, g.size);
      var i' :| 0 <= i' < blocks[j].count && t == SlotAt(first, i', g.size);
      if i < i' {
        SlotOrder(first, i, i', g.size);
      } else if i' < i {
        SlotOrder(first, i', i, g.size);
      }
    } else {
      SlotInBlock(g, blocks[j], s);
      SlotInBlock(g, blocks[k], t);
    }
  }

  /** A slot overlaps no block's link word. */
  lemma {:induction false} LinkApart(g: Shape, sizes: map<nat, nat>, blocks: seq<Block>, s: nat, k: nat)
    requires GoodShape(g) && GoodBlocks(g, sizes, blocks) && IsSlot(g, blocks, s) && k < |blocks|
    ensures blocks[k].at + WORD_BYTES <= s || s + g.size <= blocks[k].at
  {
    var j :| 0 <= j < |blocks| && IsSlotOf(g, blocks[j], s);
    SlotInBlock(g, blocks[j], s);
    SlotIsProduct(First(g, blocks[k]), blocks[k].count, g.size);
  }

  // ----- memory -----

  predicate Apart(a: nat, b: nat) {
    a + WORD_BYTES <= b || b + WORD_BYTES <= a
  }

  /** A pointer stored at `p`; words that overlap it are no longer what they were. */
  function Store(m: map<nat, nat>, p: nat, v: nat): (m': map<nat, nat>)
    ensures p in m' && m'[p] == v
    ensures forall a :: a in m && Apart(a, p) ==> a in m' && m'[a] == m[a]
  {
    (map a | a in m && Apart(a, p) :: m[a])[p := v]
  }

  /** A null-terminated list threaded through memory. */
  ghost predicate Chain(m: map<nat, nat>, head: nat, list: seq<nat>)
    decreases list
  {
    if list == [] then head == 0 else head != 0 && head == list[0] && head in m && Chain(m, m[head], list[1..])
  }

  lemma {:induction false} ChainSame(m: map<nat, nat>, m': map<nat, nat>, head: nat, list: seq<nat>)
    requires Chain(m, head, list)
    requires forall a :: a in list && a in m ==> a in m' && m'[a] == m[a]
    ensures Chain(m', head, list)
    decreases list
  {
    if list != [] {
      ChainSame(m, m', m[head], list[1..]);
    }
  }

  // ----- the allocator's state -----

  /** Memory, the blocks malloc has given out with their sizes, and the heads of the two lists. */
  datatype State = State(memory: map<nat, nat>, sizes: map<nat, nat>, head: nat, blockHead: nat)

  function Addresses(blocks: seq<Block>): (s: seq<nat>)
    ensures |s| == |blocks| && forall i :: 0 <= i < |s| ==> s[i] == blocks[i].at
  {
    if blocks == [] then [] else [blocks[0].at] + Addresses(blocks[1..])
  }

  ghost predicate Partition(g: Shape, blocks: seq<Block>, free: seq<nat>, live: set<nat>) {
    && (forall i, j :: 0 <= i < j < |free| ==> free[i] != free[j])
    && (forall s :: s in free ==> s !in live)
    && (forall s :: IsSlot(g, blocks, s) <==> s in free || s in live)
  }

  /** The free list and the objects handed out are disjoint and together all slots; both lists are linked up. */
  ghost predicate Inv(g: Shape, s: State, blocks: seq<Block>, free: seq<nat>, live: set<nat>) {
    && GoodShape(g) && GoodBlocks(g, s.sizes, blocks)
    && Chain(s.memory, s.blockHead, Addresses(blocks))
    && Chain(s.memory, s.head, free)
    && Partition(g, blocks, free, live)
  }

  lemma {:induction false} TakeKeeps(g: Shape, s: State, blocks: seq<Block>, free: seq<nat>, live: set<nat>)
    requires Inv(g, s, blocks, free, live) && s.head != 0
    ensures free != [] && s.head == free[0] && s.head in s.memory && s.head !in live
    ensures Inv(g, s.(head := s.memory[s.head]), blocks, free[1..], live + {s.head})
  {
    assert forall x :: x in free <==> x == free[0] || x in free[1..];
  }

  /** A store anywhere in a slot that is handed out leaves both lists alone. */
  lemma {:induction false} StoreKeeps(g: Shape, s: State, blocks: seq<Block>, free: seq<nat>, live: set<nat>, p: nat,
                                      q: nat, v: nat)
    requires Inv(g, s, blocks, free, live) && p in live && p <= q && q + WORD_BYTES <= p + g.size
    ensures Inv(g, s.(memory := Store(s.memory, q, v)), blocks, free, live)
  {
    var m' := Store(s.memory, q, v);
    forall a | a in free
      ensures Apart(a, q)
    {
      if a < p {
        SlotsApart(g, s.sizes, blocks, a, p);
      } else {
        SlotsApart(g, s.sizes, blocks, p, a);
      }
    }
    ChainSame(s.memory, m', s.head, free);
    forall a | a in Addresses(blocks)
      ensures Apart(a, q)
    {
      var k :| 0 <= k < |blocks| && Addresses(blocks)[k] == a;
      LinkApart(g, s.sizes, blocks, p, k);
    }
    ChainSame(s.memory, m', s.blockHead, Addresses(blocks));
  }

  lemma {:induction false} GiveKeeps(g: Shape, s: State, blocks: seq<Block>, free: seq<nat>, live: set<nat>, p: nat)
    requires Inv(g, s, blocks, free, live) && p in live
    ensures Inv(g, s.(memory := Store(s.memory, p, s.head), head := p), blocks, [p] + free, live - {p})
  {
    StoreKeeps(g, s, blocks, free, live, p, p, s.head);
    assert ([p] + free)[1..] == free;
    assert IsSlot(g, blocks, p);
    var k :| 0 <= k < |blocks| && IsSlotOf(g, blocks[k], p);
    SlotInBlock(g, blocks[k], p);
  }

  // ----- adding a block -----

  ghost function Carved(first: nat, n: nat, size: nat): (s: seq<nat>)
    ensures |s| == n
    decreases n
  {
    if n == 0 then [] else [first] + Carved(first + size, n - 1, size)
  }

  lemma {:induction false} CarvedAt(first: nat, n: nat, size: nat, i: nat)
    requires i < n
    ensures Carved(first, n, size)[i] == SlotAt(first, i, size)
    decreases n
  {
    if i != 0 {
      CarvedAt(first + size, n - 1, size, i - 1);
    }
  }

  lemma {:induction false} CarvedSlots(g: Shape, b: Block, s: nat)
    ensures s in Carved(First(g, b), b.count, g.size) <==> IsSlotOf(g, b, s)
  {
    var carved := Carved(First(g, b), b.count, g.size);
    forall i | 0 <= i < b.count
      ensures carved[i] == SlotAt(First(g, b), i, g.size)
    {
      CarvedAt(First(g, b), b.count, g.size, i);
    }
    if s in carved {
      var i :| 0 <= i < b.count && carved[i] == s;
    }
  }

  /** Each slot's word points to the next slot, the last one's to `tail`. */
  ghost predicate Threaded(m: map<nat, nat>, first: nat, n: nat, size: nat, tail: nat)
    decreases n
  {
    n == 0 || (first in m && m[first] == (if n == 1 then tail else first + size)
        && Threaded(m, first + size, n - 1, size, tail))
  }

  lemma {:induction false} ThreadedChain(m: map<nat, nat>, first: nat, n: nat, size: nat, tail: nat, free: seq<nat>)
    requires Threaded(m, first, n, size, tail) && n >= 1 && first > 0 && Chain(m, tail, free)
    ensures Chain(m, first, Carved(first, n, size) + free)
    decreases n
  {
    var list := Carved(first, n, size) + free;
    assert list[1..] == Carved(first + size, n - 1, size) + free;
    if n > 1 {
      ThreadedChain(m, first + size, n - 1, size, tail, free);
    } else {
      assert list[1..] == free;
    }
  }

  /** Outside a block memory is as it was. */
  ghost predicate SameOutside(m: map<nat, nat>, m': map<nat, nat>, b: Block) {
    forall a :: a in m && (a + WORD_BYTES <= b.at || b.at + b.bytes <= a) ==> a in m' && m'[a] == m[a]
  }

  /** Memory from malloc that is not one of the blocks. */
  ghost predicate Separate(s: State, blocks: seq<Block>, b: Block) {
    b.at in s.sizes && b.bytes <= s.sizes[b.at] && forall k :: 0 <= k < |blocks| ==> blocks[k].at != b.at
  }

  lemma {:induction false} OldSlotOutside(g: Shape, s: State, blocks: seq<Block>, b: Block, p: nat)
    requires GoodShape(g) && GoodBlocks(g, s.sizes, blocks) && Separate(s, blocks, b) && IsSlot(g, blocks, p)
    ensures p + WORD_BYTES <= b.at || b.at + b.bytes <= p
    ensures GoodBlock(g, b) ==> !IsSlotOf(g, b, p)
  {
    var k :| 0 <= k < |blocks| && IsSlotOf(g, blocks[k], p);
    SlotInBlock(g, blocks[k], p);
    if GoodBlock(g, b) && IsSlotOf(g, b, p) {
      SlotInBlock(g, b, p);
    }
  }

  lemma {:induction false} OldLinkOutside(g: Shape, s: State, blocks: seq<Block>, b: Block, k: nat)
    requires GoodShape(g) && GoodBlocks(g, s.sizes, blocks) && Separate(s, blocks, b) && k < |blocks|
    ensures blocks[k].at + WORD_BYTES <= b.at || b.at + b.bytes <= blocks[k].at
  {
    SlotIsProduct(First(g, blocks[k]), blocks[k].count, g.size);
  }

  lemma {:induction false} OldBlockChain(g: Shape, s: State, m': map<nat, nat>, blocks: seq<Block>, b: Block)
    requires GoodShape(g) && GoodBlocks(g, s.sizes, blocks) && Chain(s.memory, s.blockHead, Addresses(blocks))
    requires Separate(s, blocks, b) && SameOutside(s.memory, m', b)
    ensures Chain(m', s.blockHead, Addresses(blocks))
  {
    forall a | a in Addresses(blocks) && a in s.memory
      ensures a in m' && m'[a] == s.memory[a]
    {
      var k :| 0 <= k < |blocks| && Addresses(blocks)[k] == a;
      OldLinkOutside(g, s, blocks, b, k);
    }
    ChainSame(s.memory, m', s.blockHead, Addresses(blocks));
  }

  lemma {:induction false} OldChains(g: Shape, s: State, m': map<nat, nat>, blocks: seq<Block>, free: seq<nat>,
                                     live: set<nat>, b: Block)
    requires Inv(g, s, blocks, free, live) && Separate(s, blocks, b) && SameOutside(s.memory, m', b)
    ensures Chain(m', s.blockHead, Addresses(blocks)) && Chain(m', s.head, free)
  {
    OldBlockChain(g, s, m', blocks, b);
    forall a | a in free && a in s.memory
      ensures a in m' && m'[a] == s.memory[a]
    {
      OldSlotOutside(g, s, blocks, b, a);
    }
    ChainSame(s.memory, m', s.head, free);
  }

  lemma {:induction false} AddSlots(g: Shape, blocks: seq<Block>, b: Block, p: nat)
    ensures IsSlot(g, [b] + blocks, p) <==> IsSlotOf(g, b, p) || IsSlot(g, blocks, p)
  {
    var all := [b] + blocks;
    if IsSlotOf(g, b, p) {
      assert IsSlotOf(g, all[0], p);
    }
    if IsSlot(g, blocks, p) {
      var k :| 0 <= k < |blocks| && IsSlotOf(g, blocks[k], p);
      assert IsSlotOf(g, all[k + 1], p);
    }
  }

  lemma {:induction false} AddPartition(g: Shape, s: State, blocks: seq<Block>, free: seq<nat>, live: set<nat>,
                                        b: Block)
    requires Inv(g, s, blocks, free, live) && GoodBlock(g, b) && Separate(s, blocks, b)
    ensures Partition(g, [b] + blocks, Carved(First(g, b), b.count, g.size) + free, live)
  {
    var carved := Carved(First(g, b), b.count, g.size);
    forall p: nat
      ensures p in carved <==> IsSlotOf(g, b, p)
      ensures IsSlot(g, [b] + blocks, p) <==> IsSlotOf(g, b, p) || IsSlot(g, blocks, p)
      ensures IsSlot(g, blocks, p) ==> !IsSlotOf(g, b, p)
    {
      CarvedSlots(g, b, p);
      AddSlots(g, blocks, b, p);
      if IsSlot(g, blocks, p) {
        OldSlotOutside(g, s, blocks, b, p);
      }
    }
    CarvedDistinct(g, First(g, b), b.count);
    assert forall i :: 0 <= i < |carved| ==> carved[i] in carved;
    assert forall i :: 0 <= i < |free| ==> free[i] in free;
  }

  lemma {:induction false} CarvedDistinct(g: Shape, first: nat, n: nat)
    requires GoodShape(g)
    ensures forall i, j :: 0 <= i < j < n ==> Carved(first, n, g.size)[i] != Carved(first, n, g.size)[j]
  {
    forall i, j | 0 <= i < j < n
      ensures Carved(first, n, g.size)[i] != Carved(first, n, g.size)[j]
    {
      CarvedAt(first, n, g.size, i);
      CarvedAt(first, n, g.size, j);
      SlotOrder(first, i, j, g.size);
    }
  }

  lemma {:induction false} AddKeeps(g: Shape, s: State, m': map<nat, nat>, blocks: seq<Block>, free: seq<nat>,
                                    live: set<nat>, b: Block)
    requires Inv(g, s, blocks, free, live) && GoodBlock(g, b) && Separate(s, blocks, b) && SameOutside(s.memory, m', b)
    requires b.at in m' && m'[b.at] == s.blockHead && Threaded(m', First(g, b), b.count, g.size, s.head)
    ensures Inv(g, s.(memory := m', head := First(g, b), blockHead := b.at), [b] + blocks,
                Carved(First(g, b), b.count, g.size) + free, live)
  {
    OldChains(g, s, m', blocks, free, live, b);
    ThreadedChain(m', First(g, b), b.count, g.size, s.head, free);
    AddPartition(g, s, blocks, free, live, b);
    assert Addresses([b] + blocks)[1..] == Addresses(blocks);
  }

  /** Slot `i` points to the slot after it. */
  ghost predicate PointsOn(m: map<nat, nat>, first: nat, i: nat, size: nat) {
    SlotAt(first, i, size) in m && m[SlotAt(first, i, size)] == SlotAt(first, i + 1, size)
  }

  /** A new block with its link word written and its first `n` slots threaded. */
  ghost predicate Carving(g: Shape, b: Block, m0: map<nat, nat>, m: map<nat, nat>, link: nat, n: nat) {
    && SameOutside(m0, m, b) && b.at in m && m[b.at] == link
    && forall i :: 0 <= i < n ==> PointsOn(m, First(g, b), i, g.size)
  }

  lemma {:induction false} CarvingStarts(g: Shape, b: Block, m: map<nat, nat>, link: nat)
    requires GoodShape(g) && GoodBlock(g, b)
    ensures Carving(g, b, m, Store(m, b.at, link), link, 0)
  {
    SlotIsProduct(First(g, b), b.count, g.size);
    assert b.bytes >= WORD_BYTES;
  }

  lemma {:induction false} CarvingStep(g: Shape, b: Block, m0: map<nat, nat>, m: map<nat, nat>, link: nat, n: nat,
                                       p: nat, v: nat)
    requires GoodShape(g) && GoodBlock(g, b) && Carving(g, b, m0, m, link, n)
    requires n < b.count && p == SlotAt(First(g, b), n, g.size)
    ensures Carving(g, b, m0, Store(m, p, v), link, n)
    ensures v == SlotAt(First(g, b), n + 1, g.size) ==> Carving(g, b, m0, Store(m, p, v), link, n + 1)
  {
    var m', first := Store(m, p, v), First(g, b);
    assert IsSlotOf(g, b, p);
    SlotInBlock(g, b, p);
    forall i | 0 <= i < n
      ensures PointsOn(m', first, i, g.size)
    {
      SlotOrder(first, i, n, g.size);
      assert PointsOn(m, first, i, g.size);
    }
  }

  lemma {:induction false} PointsOnThreaded(m: map<nat, nat>, first: nat, n: nat, size: nat, tail: nat)
    requires n >= 1 && forall i :: 0 <= i < n - 1 ==> PointsOn(m, first, i, size)
    requires SlotAt(first, n - 1, size) in m && m[SlotAt(first, n - 1, size)] == tail
    ensures Threaded(m, first, n, size, tail)
    decreases n
  {
    if n > 1 {
      var second := first + size;
      forall i | 0 <= i < n - 2
        ensures PointsOn(m, second, i, size)
      {
        assert PointsOn(m, first, i + 1, size);
      }
      assert PointsOn(m, first, 0, size);
      PointsOnThreaded(m, second, n - 1, size, tail);
    }
  }

  /** As many slots as fit. */
  lemma {:induction false} CountFits(g: Shape, b: Block)
    requires GoodShape(g) && b.at > 0 && b.bytes >= g.alignment + g.size && b.count == (b.bytes - g.alignment) / g.size
    ensures GoodBlock(g, b) && b.bytes < SlotAt(First(g, b), b.count, g.size) + g.size - b.at
  {
    var n := b.bytes - g.alignment;
    assert n == b.count * g.size + n % g.size;
    SlotIsProduct(First(g, b), b.count, g.size);
  }

  // ----- giving blocks back -----

  /** Memory without a block. */
  function Drop(m: map<nat, nat>, at: nat, bytes: nat): (m': map<nat, nat>) {
    map a | a in m && (a + WORD_BYTES <= at || at + bytes <= a) :: m[a]
  }

  lemma {:induction false} DropKeeps(g: Shape, s: State, blocks: seq<Block>, free: seq<nat>, live: set<nat>, p: nat)
    requires Inv(g, s, blocks, free, live) && p in s.sizes && Separate(s, blocks, Block(p, s.sizes[p], 0))
    ensures Inv(g, s.(memory := Drop(s.memory, p, s.sizes[p]), sizes := s.sizes - {p}), blocks, free, live)
  {
    OldChains(g, s, Drop(s.memory, p, s.sizes[p]), blocks, free, live, Block(p, s.sizes[p], 0));
  }

  /** The blocks that are still to be freed. */
  ghost predicate ToFree(g: Shape, s: State, blocks: seq<Block>) {
    GoodShape(g) && GoodBlocks(g, s.sizes, blocks) && Chain(s.memory, s.blockHead, Addresses(blocks))
  }

  lemma {:induction false} FreeNext(g: Shape, s: State, blocks: seq<Block>)
    requires ToFree(g, s, blocks) && s.blockHead != 0
    ensures blocks != [] && s.blockHead == blocks[0].at && s.blockHead in s.memory && s.blockHead in s.sizes
    ensures ToFree(g, s.(memory := Drop(s.memory, s.blockHead, s.sizes[s.blockHead]), sizes := s.sizes - {s.blockHead},
                         blockHead := s.memory[s.blockHead]), blocks[1..])
  {
    var p := s.blockHead;
    assert Addresses(blocks)[1..] == Addresses(blocks[1..]);
    OldBlockChain(g, s.(blockHead := s.memory[p]), Drop(s.memory, p, s.sizes[p]), blocks[1..], Block(p, s.sizes[p], 0));
  }

  /** Some blocks freed, the rest still to be. */
  ghost predicate Freeing(g: Shape, s0: State, blocks: seq<Block>, s: State, freed: seq<nat>, rest: seq<Block>) {
    && ToFree(g, s, rest) && freed + Addresses(rest) == Addresses(blocks)
    && s.sizes == s0.sizes - (set p | p in freed)
  }

  function FreeHead(s: State): (s': State)
    requires s.blockHead in s.memory && s.blockHead in s.sizes
  {
    s.(memory := Drop(s.memory, s.blockHead, s.sizes[s.blockHead]), sizes := s.sizes - {s.blockHead},
       blockHead := s.memory[s.blockHead])
  }

  lemma {:induction false} FreeingStarts(g: Shape, s: State, blocks: seq<Block>)
    requires ToFree(g, s, blocks)
    ensures Freeing(g, s, blocks, s, [], blocks)
  {
    assert [] + Addresses(blocks) == Addresses(blocks);
  }

  lemma {:induction false} FreeingStep(g: Shape, s0: State, blocks: seq<Block>, s: State, freed: seq<nat>,
                                       rest: seq<Block>)
    requires Freeing(g, s0, blocks, s, freed, rest) && s.blockHead != 0
    ensures rest != [] && s.blockHead in s.memory && s.blockHead in s.sizes
    ensures Freeing(g, s0, blocks, FreeHead(s), freed + [s.blockHead], rest[1..])
  {
    FreeNext(g, s, rest);
    assert freed + Addresses(rest) == freed + [s.blockHead] + Addresses(rest[1..]);
    assert s.sizes - {s.blockHead} == s0.sizes - (set p | p in freed + [s.blockHead]);
  }

  lemma {:induction false} FreeingDone(g: Shape, s0: State, blocks: seq<Block>, s: State, freed: seq<nat>,
                                       rest: seq<Block>)
    requires Freeing(g, s0, blocks, s, freed, rest) && s.blockHead == 0
    ensures freed == Addresses(blocks) && Inv(g, s.(head := 0), [], [], {})
  {
    assert |Addresses(rest)| == |rest|;
  }

  // ----- what has been handed out -----

  datatype Event = Handed(slot: nat) | Returned(slot: nat)

  ghost function LiveAfter(log: seq<Event>): (live: set<nat>) {
    if log == [] then {}
    else
      match log[|log| - 1]
      case Handed(s) => LiveAfter(log[..|log| - 1]) + {s}
      case Returned(s) => LiveAfter(log[..|log| - 1]) - {s}
  }

  /** Only slots that are not out are handed out, and only slots that are out come back. */
  ghost predicate Proper(log: seq<Event>) {
    log == []
    || (Proper(log[..|log| - 1])
        && match log[|log| - 1]
           case Handed(s) => s !in LiveAfter(log[..|log| - 1])
           case Returned(s) => s in LiveAfter(log[..|log| - 1]))
  }

  lemma {:induction false} HandedStaysLive(log: seq<Event>, i: nat, s: nat)
    requires i < |log| && log[i] == Handed(s) && forall k :: i < k < |log| ==> log[k] != Returned(s)
    ensures s in LiveAfter(log)
    decreases |log|
  {
    if i < |log| - 1 {
      HandedStaysLive(log[..|log| - 1], i, s);
    }
  }

  lemma {:induction false} ProperPrefix(log: seq<Event>, n: nat)
    requires Proper(log) && n <= |log|
    ensures Proper(log[..n])
    decreases |log|
  {
    if n < |log| {
      ProperPrefix(log[..|log| - 1], n);
      assert log[..|log| - 1][..n] == log[..n];
    } else {
      assert log[..n] == log;
    }
  }

  /** A slot handed out twice came back in between. */
  lemma {:induction false} ReturnedBetween(log: seq<Event>, i: nat, j: nat)
    requires Proper(log) && i < j < |log| && log[i].Handed? && log[i] == log[j]
    ensures exists k :: i < k < j && log[k] == Returned(log[i].slot)
  {
    if forall k :: i < k < j ==> log[k] != Returned(log[i].slot) {
      assert log[..j + 1][..j] == log[..j];
      ProperPrefix(log, j + 1);
      HandedStaysLive(log[..j], i, log[i].slot);
    }
  }

  // ----- how many slots the next block gets -----

  /** Starting from `n`, doubled once per block there is, as long as `max` allows. */
  function Grow(n: nat, max: nat, blocks: nat): (r: nat)
    decreases blocks
  {
    if n * 2 <= max && blocks > 0 then Grow(n * 2, max, blocks - 1) else n
  }

  function Doubled(n: nat, k: nat): (r: nat)
    decreases k
  {
    if k == 0 then n else Doubled(n * 2, k - 1)
  }

  /** As many doublings as there are blocks, or as fit. */
  lemma {:induction false} GrowDoubles(n: nat, max: nat, blocks: nat) returns (k: nat)
    requires n <= max
    ensures k <= blocks && Grow(n, max, blocks) == Doubled(n, k) <= max
    ensures k == blocks || Doubled(n, k + 1) > max
    decreases blocks
  {
    if n * 2 <= max && blocks > 0 {
      var k' := GrowDoubles(n * 2, max, blocks - 1);
      k := k' + 1;
    } else {
      k := 0;
    }
  }

  lemma {:induction false} GrowPositive(n: nat, max: nat, blocks: nat)
    requires n >= 1
    ensures Grow(n, max, blocks) >= 1
    decreases blocks
  {
    if n * 2 <= max && blocks > 0 {
      GrowPositive(n * 2, max, blocks - 1);
    }
  }
}
