/** The bulk pool allocator: hands out slots of blocks it gets from malloc and takes them back. */
module PoolAllocator {
  import opened PoolLayout

  /** Whether malloc may answer with the `bytes` bytes at `p`. */
  ghost predicate Fresh(sizes: map<nat, nat>, p: nat, bytes: nat) {
    p > 0 && p !in sizes && SizesApart(sizes[p := bytes])
  }

  lemma {:induction false} LogMore(log: seq<Event>, e: Event)
    requires Proper(log) && (if e.Handed? then e.slot !in LiveAfter(log) else e.slot in LiveAfter(log))
    ensures Proper(log + [e])
    ensures LiveAfter(log + [e]) == if e.Handed? then LiveAfter(log) + {e.slot} else LiveAfter(log) - {e.slot}
  {
    assert (log + [e])[..|log|] == log;
  }

  lemma {:induction false} MallocKeeps(g: Shape, s: State, blocks: seq<Block>, free: seq<nat>, live: set<nat>, p: nat,
                                       bytes: nat)
    requires Inv(g, s, blocks, free, live) && Fresh(s.sizes, p, bytes)
    ensures Inv(g, s.(sizes := s.sizes[p := bytes]), blocks, free, live)
    ensures forall k :: 0 <= k < |blocks| ==> blocks[k].at != p
  {
  }

  lemma {:induction false} ProductAtLeast(size: nat, n: nat)
    requires n >= 1
    ensures size * n >= size
  {
  }

  class Pool {
    const shape: Shape
    const minAllocs: nat
    const maxAllocs: nat

    /** The pointers stored in memory, by address. */
    var memory: map<nat, nat>
    /** What malloc has given out, with its size: here and to others. */
    var sizes: map<nat, nat>
    var head: nat
    var blockHead: nat

    ghost var blocks: seq<Block>
    ghost var free: seq<nat>
    ghost var log: seq<Event>

    ghost function Now(): (s: State)
      reads this
    {
      State(memory, sizes, head, blockHead)
    }

    ghost predicate Valid()
      reads this
    {
      && 1 <= minAllocs <= maxAllocs
      && Inv(shape, Now(), blocks, free, LiveAfter(log))
      && Proper(log)
    }

    /** What the next block has to hold. */
    ghost function BytesNeeded(): (n: nat)
      reads this
    {
      shape.alignment + shape.size * Grow(minAllocs, maxAllocs, |blocks|)
    }

    constructor (shape: Shape, minAllocs: nat, maxAllocs: nat, memory: map<nat, nat>, sizes: map<nat, nat>)
      requires GoodShape(shape) && 1 <= minAllocs <= maxAllocs && SizesApart(sizes)
      ensures Valid() && log == [] && blocks == []
      ensures this.shape == shape && this.sizes == sizes && this.memory == memory
    {
      this.shape, this.minAllocs, this.maxAllocs := shape, minAllocs, maxAllocs;
      this.memory, this.sizes, head, blockHead := memory, sizes, 0, 0;
      blocks, free, log := [], [], [];
    }

    /** Takes the head off the free list. */
    method Take() returns (slot: nat)
      requires Valid() && head != 0
      modifies this`head, this`free, this`log
      ensures Valid() && slot == old(head) && log == old(log) + [Handed(slot)]
      ensures slot !in LiveAfter(old(log)) && IsSlot(shape, blocks, slot)
    {
      TakeKeeps(shape, Now(), blocks, free, LiveAfter(log));
      LogMore(log, Handed(head));
      slot, head := head, memory[head];
      free, log := free[1..], log + [Handed(slot)];
    }

    /** Hands out a slot that is not out.  `answer` is what malloc returns if it is asked; with 0 the
        allocation fails and nothing changes. */
    method Allocate(answer: nat) returns (slot: nat)
      requires Valid()
      requires head == 0 && answer != 0 ==> Fresh(sizes, answer, BytesNeeded())
      modifies this
      ensures Valid()
      ensures slot == 0 <==> old(head) == 0 && answer == 0
      ensures slot == 0 ==> Now() == old(Now()) && log == old(log)
      ensures slot != 0 ==>
                log == old(log) + [Handed(slot)] && slot !in LiveAfter(old(log)) && IsSlot(shape, blocks, slot)
      ensures old(head) != 0 ==> sizes == old(sizes) && blocks == old(blocks)
      ensures old(head) == 0 && slot != 0 ==> sizes == old(sizes[answer := BytesNeeded()]) && blocks[1..] == old(blocks)
    {
      if head == 0 {
        if answer == 0 {
          return 0;
        }
        PerformAllocation(answer);
      }
      slot := Take();
    }

    method PerformAllocation(answer: nat)
      requires Valid() && Fresh(sizes, answer, BytesNeeded())
      modifies this
      ensures Valid() && log == old(log) && head != 0
      ensures sizes == old(sizes[answer := BytesNeeded()]) && |blocks| > 0 && blocks[1..] == old(blocks)
    {
      var n := CalcNumElementsToAlloc();
      var bytes := shape.alignment + shape.size * n;
      GrowPositive(minAllocs, maxAllocs, |blocks|);
      ProductAtLeast(shape.size, n);
      MallocKeeps(shape, Now(), blocks, free, LiveAfter(log), answer, bytes);
      sizes := sizes[answer := bytes];
      Add(answer, bytes);
    }

    /** Twice as many per block there is, counted along the list of blocks. */
    method CalcNumElementsToAlloc() returns (n: nat)
      requires Valid()
      ensures n == Grow(minAllocs, maxAllocs, |blocks|)
    {
      n := minAllocs;
      var tmp := blockHead;
      ghost var rest := Addresses(blocks);
      while n * 2 <= maxAllocs && tmp != 0
        invariant Chain(memory, tmp, rest) && n >= 1
        invariant Grow(n, maxAllocs, |rest|) == Grow(minAllocs, maxAllocs, |blocks|)
        decreases |rest|
      {
        tmp, n, rest := memory[tmp], n * 2, rest[1..];
      }
    }

    /** Adds a block that is big enough for one slot at least. */
    method Add(p: nat, bytes: nat)
      requires Valid() && p > 0 && p in sizes && shape.alignment + shape.size <= bytes <= sizes[p]
      requires forall k :: 0 <= k < |blocks| ==> blocks[k].at != p
      modifies this`memory, this`head, this`blockHead, this`blocks, this`free
      ensures Valid() && head == p + shape.alignment
      ensures blocks == [Block(p, bytes, (bytes - shape.alignment) / shape.size)] + old(blocks)
    {
      var count := (bytes - shape.alignment) / shape.size;
      ghost var b, s := Block(p, bytes, count), Now();
      CountFits(shape, b);
      var first := p + shape.alignment;
      Thread(b, first, count);
      AddKeeps(shape, s, memory, blocks, free, LiveAfter(log), b);
      blockHead, head := p, first;
      blocks, free := [b] + blocks, Carved(first, count, shape.size) + free;
    }

    /** Writes the link word of a new block and makes a list of its slots in front of the free list. */
    method Thread(ghost b: Block, first: nat, count: nat)
      requires GoodShape(shape) && GoodBlock(shape, b) && first == First(shape, b) && count == b.count
      modifies this`memory
      ensures SameOutside(old(memory), memory, b) && b.at in memory && memory[b.at] == blockHead
      ensures Threaded(memory, first, count, shape.size, head)
    {
      ghost var m0 := memory;
      CarvingStarts(shape, b, m0, blockHead);
      memory := Store(memory, first - shape.alignment, blockHead);
      for i := 0 to count
        invariant Carving(shape, b, m0, memory, blockHead, i)
      {
        SlotIsProduct(first, i, shape.size);
        SlotIsProduct(first, i + 1, shape.size);
        var p, next := first + i * shape.size, first + (i + 1) * shape.size;
        CarvingStep(shape, b, m0, memory, blockHead, i, p, next);
        memory := Store(memory, p, next);
      }
      SlotIsProduct(first, count - 1, shape.size);
      var last := first + (count - 1) * shape.size;
      CarvingStep(shape, b, m0, memory, blockHead, count - 1, last, head);
      memory := Store(memory, last, head);
      PointsOnThreaded(memory, first, count, shape.size, head);
    }

    /** Takes a slot back. */
    method Deallocate(slot: nat)
      requires Valid() && slot in LiveAfter(log)
      modifies this`memory, this`head, this`free, this`log
      ensures Valid() && head == slot && log == old(log) + [Returned(slot)]
    {
      GiveKeeps(shape, Now(), blocks, free, LiveAfter(log), slot);
      LogMore(log, Returned(slot));
      memory, head := Store(memory, slot, head), slot;
      free, log := [slot] + free, log + [Returned(slot)];
    }

    /** The owner of a slot writes a word of it. */
    method Write(slot: nat, at: nat, value: nat)
      requires Valid() && slot in LiveAfter(log) && slot <= at && at + WORD_BYTES <= slot + shape.size
      modifies this`memory
      ensures Valid() && at in memory && memory[at] == value
    {
      StoreKeeps(shape, Now(), blocks, free, LiveAfter(log), slot, at, value);
      memory := Store(memory, at, value);
    }

    /** free() */
    method Release(p: nat)
      requires p in sizes
      modifies this`memory, this`sizes
      ensures memory == Drop(old(memory), p, old(sizes[p])) && sizes == old(sizes) - {p}
    {
      memory, sizes := Drop(memory, p, sizes[p]), sizes - {p};
    }

    /** Uses memory from elsewhere for slots, or frees it if not even one would fit. */
    method AddOrFree(p: nat, bytes: nat)
      requires Valid() && p > 0 && p in sizes && bytes <= sizes[p]
      requires forall k :: 0 <= k < |blocks| ==> blocks[k].at != p
      modifies this
      ensures Valid() && log == old(log)
      ensures bytes < shape.alignment + shape.size ==> sizes == old(sizes) - {p} && blocks == old(blocks)
      ensures bytes >= shape.alignment + shape.size ==>
                sizes == old(sizes) && blocks == [Block(p, bytes, (bytes - shape.alignment) / shape.size)] + old(blocks)
    {
      if bytes < shape.alignment + shape.size {
        DropKeeps(shape, Now(), blocks, free, LiveAfter(log), p);
        Release(p);
      } else {
        Add(p, bytes);
      }
    }

    /** Frees every block once, in the order of the list, and nothing else. */
    method Reset() returns (freed: seq<nat>)
      requires Valid()
      modifies this
      ensures Valid() && blocks == [] && log == []
      ensures freed == Addresses(old(blocks)) && sizes == old(sizes) - (set p | p in freed)
    {
      freed := [];
      ghost var s0, all, rest := Now(), blocks, blocks;
      FreeingStarts(shape, s0, all);
      while blockHead != 0
        invariant Freeing(shape, s0, all, Now(), freed, rest)
        decreases |rest|
      {
        FreeingStep(shape, s0, all, Now(), freed, rest);
        var tmp := memory[blockHead];
        Release(blockHead);
        freed, rest := freed + [blockHead], rest[1..];
        blockHead := tmp;
      }
      FreeingDone(shape, s0, all, Now(), freed, rest);
      head := 0;
      blocks, free, log := [], [], [];
    }
  }
}
