/**
 * The guest heap: best fit over a size-ordered free list, splitting but never
 * merging, with a bump pointer behind it; and reallocation on top of it.
 */
module GuestHeap {
  import opened Basics

  datatype Block = Block(size: nat, address: nat)

  // `free` lists the size-keyed multimap in its own order.
  datatype Heap = Heap(
    limit: uint32, next: uint32, sizes: map<uint32, uint32>, capacities: map<uint32, uint32>, free: seq<Block>)

  const WRAP := 0x1_0000_0000

  /** The request rounded up to 16 bytes, in 32-bit arithmetic. */
  function Capacity(size: uint32): uint32 {
    ((Max(size, 1) + 15) % WRAP) / 16 * 16
  }

  function LowerBound(free: seq<Block>, size: nat): (k: nat)
    ensures k <= |free| && forall i | 0 <= i < k :: free[i].size < size
    ensures k < |free| ==> free[k].size >= size
  {
    if free == [] || free[0].size >= size then 0 else 1 + LowerBound(free[1..], size)
  }

  /** A new entry goes behind the entries of the same size. */
  function Insert(free: seq<Block>, b: Block): seq<Block> {
    if free == [] || b.size < free[0].size then [b] + free else [free[0]] + Insert(free[1..], b)
  }

  function RemoveAt(free: seq<Block>, k: nat): seq<Block>
    requires k < |free|
  {
    free[..k] + free[k + 1..]
  }

  /** How much of a free block of `size` bytes a request takes: small remainders stay with it. */
  function Taken(size: nat, capacity: nat): nat
    requires capacity <= size
  {
    if size - capacity >= 0x20 then capacity else size
  }

  /** The free list after block `k` gave its first `taken` bytes away. */
  function FreeAfterTake(free: seq<Block>, k: nat, taken: nat): seq<Block>
    requires k < |free| && taken <= free[k].size
  {
    var rest := RemoveAt(free, k);
    if taken < free[k].size then Insert(rest, Block(free[k].size - taken, free[k].address + taken)) else rest
  }

  function TakeAt(h: Heap, k: nat, wanted: uint32, capacity: uint32): Heap
    requires AddressesFit(h) && k < |h.free| && capacity <= h.free[k].size
  {
    var b := h.free[k];
    var taken := Taken(b.size, capacity);
    h.(free := FreeAfterTake(h.free, k, taken),
       sizes := h.sizes[b.address := wanted], capacities := h.capacities[b.address := taken])
  }

  function TakeEnd(h: Heap, wanted: uint32, capacity: uint32): Heap {
    h.(next := (h.next + capacity) % WRAP, sizes := h.sizes[h.next := wanted], capacities := h.capacities[h.next := capacity])
  }

  function Allocate(h: Heap, size: uint32): (Heap, uint32)
    requires AddressesFit(h)
  {
    var capacity := Capacity(size);
    var k := LowerBound(h.free, capacity);
    if k < |h.free| then (TakeAt(h, k, Max(size, 1), capacity), h.free[k].address)
    else if (h.next + capacity) % WRAP > h.limit then (h, 0)
    else (TakeEnd(h, Max(size, 1), capacity), h.next)
  }

  predicate AddressesFit(h: Heap) {
    forall b | b in h.free :: b.address + b.size < WRAP
  }

  function Release(h: Heap, address: uint32): Heap {
    if address == 0 || address !in h.sizes || address !in h.capacities then h
    else
      var capacity := h.capacities[address];
      h.(sizes := h.sizes - {address}, capacities := h.capacities - {address},
         free := if capacity != 0 then Insert(h.free, Block(capacity, address)) else h.free)
  }

  function AllocationSize(h: Heap, address: uint32): uint32 {
    if address in h.sizes then h.sizes[address] else 0
  }

  // ---- Guest memory, one byte per address ----

  function Fill(m: seq<byte>, at: nat, bytes: seq<byte>): (r: seq<byte>)
    requires at + |bytes| <= |m|
    ensures |r| == |m|
  {
    m[..at] + bytes + m[at + |bytes|..]
  }

  // ---- The class ----

  class CeMemory {
    var heapLimit: uint32
    var nextHeap: uint32
    var allocationSizes: map<uint32, uint32>
    var allocationCapacities: map<uint32, uint32>
    var freeBlocksBySize: seq<Block>
    var memory: seq<byte>

    ghost const start: uint32

    constructor (start: uint32, limit: uint32, memory: seq<byte>)
      ensures AsHeap() == Heap(limit, start, map[], map[], []) && this.start == start && this.memory == memory
    {
      this.start := start;
      heapLimit, nextHeap, allocationSizes, allocationCapacities, freeBlocksBySize := limit, start, map[], map[], [];
      this.memory := memory;
    }

    function AsHeap(): Heap
      reads this
    {
      Heap(heapLimit, nextHeap, allocationSizes, allocationCapacities, freeBlocksBySize)
    }

    method TakeBlock(size: uint32) returns (address: uint32)
      requires AddressesFit(AsHeap())
      modifies this
      ensures (AsHeap(), address) == Allocate(old(AsHeap()), size)
      ensures memory == old(memory)
    {
      var wanted: uint32 := Max(size, 1);
      var capacity := Capacity(size);
      var k := 0;
      while k < |freeBlocksBySize| && freeBlocksBySize[k].size < capacity
        invariant k <= LowerBound(freeBlocksBySize, capacity)
      {
        k := k + 1;
      }
      if k < |freeBlocksBySize| {
        address := SplitFreeBlock(k, wanted, capacity);
      } else {
        if (nextHeap + capacity) % WRAP > heapLimit {
          return 0;
        }
        address := nextHeap;
        nextHeap := (nextHeap + capacity) % WRAP;
        allocationSizes := allocationSizes[address := wanted];
        allocationCapacities := allocationCapacities[address := capacity];
      }
    }

    method SplitFreeBlock(k: nat, wanted: uint32, capacity: uint32) returns (address: uint32)
      requires AddressesFit(AsHeap()) && k < |freeBlocksBySize| && capacity <= freeBlocksBySize[k].size
      modifies this
      ensures AsHeap() == TakeAt(old(AsHeap()), k, wanted, capacity) && address == old(freeBlocksBySize)[k].address
      ensures memory == old(memory)
    {
      var b := freeBlocksBySize[k];
      assert b in AsHeap().free;
      var blockCapacity := b.size;
      address := b.address;
      freeBlocksBySize := freeBlocksBySize[..k] + freeBlocksBySize[k + 1..];
      var remainder := blockCapacity - capacity;
      blockCapacity := capacity;
      if remainder >= 0x20 {
        freeBlocksBySize := Insert(freeBlocksBySize, Block(remainder, address + capacity));
      } else {
        blockCapacity := blockCapacity + remainder;
      }
      allocationSizes := allocationSizes[address := wanted];
      allocationCapacities := allocationCapacities[address := blockCapacity];
    }

    method AllocateBlock(size: uint32, zeroFill: bool) returns (address: uint32)
      requires Inv(start, AsHeap()) && NoWrap(AsHeap(), size) && |memory| == heapLimit
      modifies this
      ensures AddressesFit(old(AsHeap())) && (AsHeap(), address) == Allocate(old(AsHeap()), size)
      ensures |old(memory)| == |memory|
      ensures address != 0 ==> address in allocationCapacities && address + allocationCapacities[address] <= |memory|
      ensures memory == if zeroFill && address != 0 then Fill(old(memory), address, Zeros(allocationCapacities[address]))
                        else old(memory)
    {
      AllocateKeepsInvIff(start, AsHeap(), size);
      AllocateRecords(start, AsHeap(), size);
      address := TakeBlock(size);
      if address == 0 {
        return;
      }
      BlockInRange(start, AsHeap(), address);
      if zeroFill {
        var zeros := Zeros(allocationCapacities[address]);
        memory := Fill(memory, address, zeros);
      }
    }

    method ReleaseAllocation(address: uint32)
      modifies this
      ensures AsHeap() == Release(old(AsHeap()), address) && memory == old(memory)
      ensures address != 0 && address in old(allocationSizes) && address in old(allocationCapacities) ==>
                && allocationSizes == old(allocationSizes) - {address}
                && allocationCapacities == old(allocationCapacities) - {address}
                && forall b :: b in freeBlocksBySize <==>
                     b in old(freeBlocksBySize) || (b == Block(old(allocationCapacities)[address], address) && b.size != 0)
    {
      if address == 0 || address !in allocationSizes || address !in allocationCapacities {
        return;
      }
      var capacity := allocationCapacities[address];
      allocationSizes := allocationSizes - {address};
      allocationCapacities := allocationCapacities - {address};
      if capacity != 0 {
        InsertAdds(freeBlocksBySize, Block(capacity, address));
        freeBlocksBySize := Insert(freeBlocksBySize, Block(capacity, address));
      }
    }

    /** Copies what fits of the old block and frees it; shared by every realloc entry point. */
    method Reallocate(address: uint32, size: uint32, zeroFill: bool) returns (result: uint32)
      requires Inv(start, AsHeap()) && NoWrap(AsHeap(), size) && |memory| == heapLimit
      modifies this
      ensures Reallocated(old(AsHeap()), old(memory), address, size, zeroFill, AsHeap(), memory, result)
      ensures Inv(start, AsHeap()) && |memory| == heapLimit
    {
      ghost var h, m := AsHeap(), memory;
      var oldSize := AllocationSize(AsHeap(), address);
      result := AllocateBlock(size, zeroFill);
      ghost var h1, m1 := AsHeap(), memory;
      ghost var h2, m2 := ReallocateSound(start, h, m, address, size, zeroFill, h1, m1, result);
      MoveContents(address, oldSize, size, result);
    }

    /** The copy and the release, which need both blocks. */
    method MoveContents(address: uint32, oldSize: uint32, size: uint32, result: uint32)
      requires address != 0 && result != 0 && oldSize != 0 ==>
                 address + Min(oldSize, size) <= |memory| && result + Min(oldSize, size) <= |memory|
      modifies this
      ensures if address != 0 && result != 0 && oldSize != 0 then
                && AsHeap() == Release(old(AsHeap()), address)
                && memory == Fill(old(memory), result, old(memory)[address..address + Min(oldSize, size)])
              else AsHeap() == old(AsHeap()) && memory == old(memory)
    {
      if address != 0 && result != 0 && oldSize != 0 {
        var bytes := memory[address..address + Min(oldSize, size)];
        memory := Fill(memory, result, bytes);
        ReleaseAllocation(address);
      }
    }

    method HandleRealloc(address: uint32, size: uint32, zeroFill: bool) returns (result: uint32)
      requires Inv(start, AsHeap()) && (size != 0 ==> NoWrap(AsHeap(), size)) && |memory| == heapLimit
      modifies this
      ensures size == 0 ==> result == 0 && AsHeap() == Release(old(AsHeap()), address) && memory == old(memory)
      ensures size != 0 ==> Reallocated(old(AsHeap()), old(memory), address, size, zeroFill, AsHeap(), memory, result)
      ensures Inv(start, AsHeap())
    {
      if size == 0 {
        ReleaseKeepsInv(start, AsHeap(), address);
        ReleaseAllocation(address);
        return 0;
      }
      result := Reallocate(address, size, zeroFill);
    }

    method HandleHeapReAlloc(heapValid: bool, address: uint32, size: uint32, zeroFill: bool)
      returns (result: uint32, error: nat)
      requires Inv(start, AsHeap()) && (heapValid && address != 0 ==> NoWrap(AsHeap(), size)) && |memory| == heapLimit
      modifies this
      ensures !heapValid || address == 0 ==> result == 0 && error == 6 && AsHeap() == old(AsHeap()) && memory == old(memory)
      ensures heapValid && address != 0 ==>
                && Reallocated(old(AsHeap()), old(memory), address, size, zeroFill, AsHeap(), memory, result)
                && error == (if result != 0 then 0 else 8)
      ensures Inv(start, AsHeap())
    {
      if !heapValid || address == 0 {
        return 0, 6;
      }
      result := Reallocate(address, size, zeroFill);
      error := if result != 0 then 0 else 8;
    }
  }

  lemma {:induction false} InsertAdds(free: seq<Block>, b: Block)
    ensures forall e :: e in Insert(free, b) <==> e in free || e == b
  {
    if free == [] || b.size < free[0].size {
    } else {
      InsertAdds(free[1..], b);
      assert free == [free[0]] + free[1..];
    }
  }

  // ---- Blocks tile the used part of the heap ----

  function Blocks(h: Heap): set<Block> {
    (set a | a in h.capacities :: Block(h.capacities[a], a)) + (set b | b in h.free)
  }

  predicate Apart(a: Block, b: Block) {
    a.address + a.size <= b.address || b.address + b.size <= a.address
  }

  predicate Holds(b: Block, x: nat) {
    b.address <= x < b.address + b.size
  }

  predicate WellPlaced(b: Block, start: nat, next: nat) {
    start <= b.address && 0 < b.size && b.address + b.size <= next && b.address % 16 == 0 && b.size % 16 == 0
  }

  /** Aligned, pairwise disjoint, and together exactly the bytes from `start` up to `next`. */
  ghost predicate Tiles(blocks: set<Block>, start: nat, next: nat) {
    && start % 16 == 0 && next % 16 == 0 && start <= next
    && (forall b | b in blocks :: WellPlaced(b, start, next))
    && (forall a, b | a in blocks && b in blocks && a != b :: Apart(a, b))
    && (forall x | start <= x < next :: Covered(blocks, x))
  }

  ghost predicate Covered(blocks: set<Block>, x: nat) {
    exists b :: b in blocks && Holds(b, x)
  }

  ghost predicate FreeListSound(free: seq<Block>) {
    && (forall i, j | 0 <= i < j < |free| :: free[i].size <= free[j].size)
    && (forall i, j | 0 <= i < j < |free| :: free[i].address != free[j].address)
  }

  ghost predicate TablesSound(h: Heap) {
    && h.sizes.Keys == h.capacities.Keys
    && (forall a | a in h.sizes :: 1 <= h.sizes[a] <= h.capacities[a] <= h.sizes[a] as int + 31)
    && FreeListSound(h.free)
    && (forall b | b in h.free :: b.address !in h.capacities)
  }

  ghost predicate Inv(start: uint32, h: Heap) {
    0 < start && h.next <= h.limit && TablesSound(h) && Tiles(Blocks(h), start, h.next)
  }

  /** The request neither wraps while it is rounded up nor when it is added to the bump pointer. */
  predicate NoWrap(h: Heap, size: uint32) {
    size <= 0xffff_fff0 && (LowerBound(h.free, Capacity(size)) < |h.free| || h.next + Capacity(size) < WRAP)
  }

  lemma SplitApart(blocks: set<Block>, start: nat, next: nat, b: Block, n: nat, p: Block, q: Block)
    requires Tiles(blocks, start, next) && b in blocks && 0 < n < b.size && p != q
    requires var lo, hi := Block(n, b.address), Block(b.size - n, b.address + n);
             p in blocks - {b} + {lo, hi} && q in blocks - {b} + {lo, hi}
    ensures Apart(p, q)
  {
    if p in blocks && p != b {
      assert Apart(p, b);
    }
    if q in blocks && q != b {
      assert Apart(q, b);
    }
  }

  lemma SplitCovered(blocks: set<Block>, start: nat, next: nat, b: Block, n: nat, x: nat)
    requires Tiles(blocks, start, next) && b in blocks && 0 < n < b.size && start <= x < next
    ensures Covered(blocks - {b} + {Block(n, b.address), Block(b.size - n, b.address + n)}, x)
  {
    assert Covered(blocks, x);
    var c :| c in blocks && Holds(c, x);
    if c == b {
      assert Holds(if x < b.address + n then Block(n, b.address) else Block(b.size - n, b.address + n), x);
    }
  }

  lemma TilesSplit(blocks: set<Block>, start: nat, next: nat, b: Block, n: nat)
    requires Tiles(blocks, start, next) && b in blocks && 0 < n < b.size && n % 16 == 0
    ensures Tiles(blocks - {b} + {Block(n, b.address), Block(b.size - n, b.address + n)}, start, next)
  {
    var r := blocks - {b} + {Block(n, b.address), Block(b.size - n, b.address + n)};
    assert WellPlaced(b, start, next);
    forall p, q | p in r && q in r && p != q ensures Apart(p, q) {
      SplitApart(blocks, start, next, b, n, p, q);
    }
    forall x | start <= x < next ensures Covered(r, x) {
      SplitCovered(blocks, start, next, b, n, x);
    }
  }

  lemma TilesExtend(blocks: set<Block>, start: nat, next: nat, n: nat)
    requires Tiles(blocks, start, next) && 0 < n && n % 16 == 0
    ensures Tiles(blocks + {Block(n, next)}, start, next + n)
  {
    var b, r := Block(n, next), blocks + {Block(n, next)};
    forall p, q | p in r && q in r && p != q ensures Apart(p, q) {
      assert p in blocks ==> WellPlaced(p, start, next);
      assert q in blocks ==> WellPlaced(q, start, next);
    }
    forall p | p in r ensures WellPlaced(p, start, next + n) {
      assert p in blocks ==> WellPlaced(p, start, next);
    }
    forall x | start <= x < next + n ensures Covered(r, x) {
      if x < next {
        assert Covered(blocks, x);
        var c :| c in blocks && Holds(c, x);
        assert c in r;
      } else {
        assert Holds(b, x);
      }
    }
  }

  lemma ConsSound(first: Block, rest: seq<Block>)
    requires FreeListSound(rest) && forall e | e in rest :: first.size <= e.size && first.address != e.address
    ensures FreeListSound([first] + rest)
  {
    var all := [first] + rest;
    assert forall i | 0 < i < |all| :: all[i] == rest[i - 1] && rest[i - 1] in rest;
  }

  lemma AllAfterFirst(free: seq<Block>)
    requires FreeListSound(free) && free != []
    ensures FreeListSound(free[1..]) && forall e | e in free[1..] :: free[0].size <= e.size && free[0].address != e.address
  {
    assert forall i | 0 <= i < |free| - 1 :: free[1..][i] == free[i + 1];
  }

  lemma {:induction false} InsertSound(free: seq<Block>, b: Block)
    requires FreeListSound(free) && forall e | e in free :: e.address != b.address
    ensures FreeListSound(Insert(free, b)) && forall e :: e in Insert(free, b) <==> e in free || e == b
  {
    InsertAdds(free, b);
    if free == [] || b.size < free[0].size {
      ConsSound(b, free);
    } else {
      AllAfterFirst(free);
      InsertSound(free[1..], b);
      ConsSound(free[0], Insert(free[1..], b));
    }
  }

  lemma RemoveSound(free: seq<Block>, k: nat)
    requires FreeListSound(free) && k < |free|
    ensures FreeListSound(RemoveAt(free, k)) && forall e :: e in RemoveAt(free, k) <==> e in free && e != free[k]
  {
    var r := RemoveAt(free, k);
    forall i | 0 <= i < |r| ensures r[i] == free[if i < k then i else i + 1] {}
    forall e | e in free && e != free[k] ensures e in r {
      var i :| 0 <= i < |free| && free[i] == e;
      assert r[if i < k then i else i - 1] == e;
    }
  }

  lemma CapacityBounds(size: uint32)
    requires size <= 0xffff_fff0
    ensures var c := Capacity(size); Max(size, 1) <= c <= Max(size, 1) + 15 && c % 16 == 0
  {
  }

  lemma LiveBlock(h: Heap, a: uint32)
    requires a in h.capacities
    ensures Block(h.capacities[a], a) in Blocks(h)
  {
  }

  lemma NothingInside(start: uint32, h: Heap, b: Block, n: nat)
    requires Inv(start, h) && b in Blocks(h) && 0 < n < b.size
    ensures forall e | e in h.free :: e.address != b.address + n
    ensures forall a | a in h.capacities :: a != b.address + n
  {
    forall e | e in h.free ensures e.address != b.address + n {
      FreshAddress(Blocks(h), start, h.next, b, n, e);
    }
    forall a | a in h.capacities ensures a != b.address + n {
      LiveBlock(h, a);
      FreshAddress(Blocks(h), start, h.next, b, n, Block(h.capacities[a], a));
    }
  }

  lemma FreeAfterTakeSound(free: seq<Block>, k: nat, taken: nat)
    requires FreeListSound(free) && k < |free| && taken <= free[k].size
    requires taken < free[k].size ==> forall e | e in free :: e.address != free[k].address + taken
    ensures var b := free[k]; var r := FreeAfterTake(free, k, taken);
            && FreeListSound(r)
            && (forall e :: e in r <==> (e in free && e != b) || (taken < b.size && e == Block(b.size - taken, b.address + taken)))
            && (forall e | e in free && e != b :: e.address != b.address)
  {
    var b := free[k];
    RemoveSound(free, k);
    if taken < b.size {
      InsertSound(RemoveAt(free, k), Block(b.size - taken, b.address + taken));
    }
    forall e | e in free && e != b ensures e.address != b.address {
      AddressesDiffer(free, k, e);
    }
  }

  lemma AddressesDiffer(free: seq<Block>, k: nat, e: Block)
    requires FreeListSound(free) && k < |free| && e in free && e != free[k]
    ensures e.address != free[k].address
  {
    var i :| 0 <= i < |free| && free[i] == e;
    var lo, up := Min(i, k), Max(i, k);
    assert free[lo].address != free[up].address;
  }

  /** Capacities of free blocks are multiples of 16, so at most 16 bytes stay with a block that is not split. */
  lemma TakenBounds(size: nat, capacity: nat)
    requires capacity <= size && capacity % 16 == 0 && size % 16 == 0
    ensures capacity <= Taken(size, capacity) <= capacity + 16 && Taken(size, capacity) <= size
    ensures Taken(size, capacity) % 16 == 0
  {
  }

  lemma TakeTables(h: Heap, g: Heap, size: nat, k: nat, taken: uint32)
    requires TablesSound(h) && k < |h.free| && h.free[k].address < WRAP && 1 <= size < WRAP
    requires size <= taken <= size + 31 && taken <= h.free[k].size
    requires taken < h.free[k].size ==> (forall e | e in h.free :: e.address != h.free[k].address + taken) &&
                                        (forall a | a in h.capacities :: a != h.free[k].address + taken)
    requires g.free == FreeAfterTake(h.free, k, taken)
    requires g.sizes == h.sizes[h.free[k].address := size] && g.capacities == h.capacities[h.free[k].address := taken]
    ensures TablesSound(g)
  {
    FreeAfterTakeSound(h.free, k, taken);
    assert h.free[k] in h.free;
  }

  lemma TakenState(h: Heap, size: uint32)
    requires AddressesFit(h) && size <= 0xffff_fff0 && LowerBound(h.free, Capacity(size)) < |h.free|
    ensures var k := LowerBound(h.free, Capacity(size)); var b := h.free[k]; var taken := Taken(b.size, Capacity(size));
            && b in h.free && b.address < WRAP && taken < WRAP
            && Allocate(h, size) ==
               (Heap(h.limit, h.next, h.sizes[b.address := Max(size, 1)], h.capacities[b.address := taken],
                     FreeAfterTake(h.free, k, taken)),
                b.address)
  {
    var k := LowerBound(h.free, Capacity(size));
    assert h.free[k] in h.free;
    assert Allocate(h, size) == (TakeAt(h, k, Max(size, 1), Capacity(size)), h.free[k].address);
  }

  /** The block set after `taken` bytes of `b` went to a request. */
  function BlocksAfterTake(blocks: set<Block>, b: Block, taken: nat): set<Block>
    requires taken <= b.size
  {
    if taken < b.size then blocks - {b} + {Block(taken, b.address), Block(b.size - taken, b.address + taken)} else blocks
  }

  lemma TilesAfterTake(blocks: set<Block>, start: nat, next: nat, b: Block, taken: nat)
    requires Tiles(blocks, start, next) && b in blocks && 0 < taken <= b.size && taken % 16 == 0
    ensures Tiles(BlocksAfterTake(blocks, b, taken), start, next)
  {
    if taken < b.size {
      TilesSplit(blocks, start, next, b, taken);
    }
  }

  /** A request served from the free list splits its block or takes it whole. */
  lemma TakeKeepsInv(start: uint32, h: Heap, size: uint32)
    requires Inv(start, h) && AddressesFit(h) && size <= 0xffff_fff0
    requires LowerBound(h.free, Capacity(size)) < |h.free|
    ensures Inv(start, Allocate(h, size).0)
    ensures var b := h.free[LowerBound(h.free, Capacity(size))];
            Blocks(Allocate(h, size).0) == BlocksAfterTake(Blocks(h), b, Taken(b.size, Capacity(size)))
  {
    var k := LowerBound(h.free, Capacity(size));
    var b, g := h.free[k], Allocate(h, size).0;
    var taken := Taken(b.size, Capacity(size));
    TakenState(h, size);
    CapacityBounds(size);
    assert b in Blocks(h) && WellPlaced(b, start, h.next);
    TakenBounds(b.size, Capacity(size));
    TilesAfterTake(Blocks(h), start, h.next, b, taken);
    assert TablesSound(g) && Blocks(g) == BlocksAfterTake(Blocks(h), b, taken) by {
      if taken < b.size {
        NothingInside(start, h, b, taken);
      }
      TakeTables(h, g, Max(size, 1), k, taken);
      FreeAfterTakeSound(h.free, k, taken);
      TakenBlocks(h, k, taken, g);
    }
  }

  /** The inside of a block is nobody's address. */
  lemma FreshAddress(blocks: set<Block>, start: nat, next: nat, b: Block, n: nat, e: Block)
    requires Tiles(blocks, start, next) && b in blocks && e in blocks && 0 < n < b.size
    ensures e.address != b.address + n
  {
    assert WellPlaced(e, start, next);
    assert e != b ==> Apart(e, b);
  }

  lemma TakenBlocks(h: Heap, k: nat, taken: nat, g: Heap)
    requires k < |h.free| && FreeListSound(h.free) && taken <= h.free[k].size && h.free[k].address < WRAP && taken < WRAP
    requires forall b | b in h.free :: b.address !in h.capacities
    requires g.capacities == h.capacities[h.free[k].address := taken]
    requires var b := h.free[k]; var hi := Block(b.size - taken, b.address + taken);
             forall e :: e in g.free <==> (e in h.free && e != b) || (taken < b.size && e == hi)
    ensures Blocks(g) == BlocksAfterTake(Blocks(h), h.free[k], taken)
  {
    var b := h.free[k];
    var lo, hi := Block(taken, b.address), Block(b.size - taken, b.address + taken);
    assert b in h.free;
    forall e ensures e in Blocks(g) <==> e in Blocks(h) - {b} + (if taken < b.size then {lo, hi} else {b}) {
      if e in (set a | a in g.capacities :: Block(g.capacities[a], a)) {
        var a :| a in g.capacities && e == Block(g.capacities[a], a);
        if a != b.address {
          LiveBlock(h, a);
        }
      }
      if e in (set a | a in h.capacities :: Block(h.capacities[a], a)) {
        var a :| a in h.capacities && e == Block(h.capacities[a], a);
        LiveBlock(g, a);
      }
      LiveBlock(g, b.address);
    }
  }

  lemma NothingAtEnd(start: uint32, h: Heap)
    requires Inv(start, h)
    ensures h.next !in h.capacities && forall e | e in h.free :: e.address != h.next
  {
    forall e | e in h.free ensures e.address != h.next {
      assert e in Blocks(h) && WellPlaced(e, start, h.next);
    }
    forall a | a in h.capacities ensures a != h.next {
      LiveBlock(h, a);
      assert WellPlaced(Block(h.capacities[a], a), start, h.next);
    }
  }

  lemma AddedBlock(h: Heap, g: Heap, b: Block)
    requires g.free == h.free && b.address < WRAP && b.size < WRAP && b.address !in h.capacities
    requires g.capacities == h.capacities[b.address := b.size]
    ensures Blocks(g) == Blocks(h) + {b}
  {
    LiveBlock(g, b.address);
    forall e ensures e in Blocks(g) <==> e in Blocks(h) + {b} {
      if e in (set a | a in g.capacities :: Block(g.capacities[a], a)) {
        var a :| a in g.capacities && e == Block(g.capacities[a], a);
        if a != b.address {
          LiveBlock(h, a);
        }
      }
      if e in (set a | a in h.capacities :: Block(h.capacities[a], a)) {
        var a :| a in h.capacities && e == Block(h.capacities[a], a);
        LiveBlock(g, a);
      }
    }
  }

  lemma BumpKeepsInv(start: uint32, h: Heap, size: uint32)
    requires Inv(start, h) && size <= 0xffff_fff0 && h.next + Capacity(size) < WRAP && h.next + Capacity(size) <= h.limit
    requires LowerBound(h.free, Capacity(size)) == |h.free| && AddressesFit(h)
    ensures Inv(start, Allocate(h, size).0)
    ensures Blocks(Allocate(h, size).0) == Blocks(h) + {Block(Capacity(size), h.next)}
  {
    CapacityBounds(size);
    NothingAtEnd(start, h);
    var capacity, g := Capacity(size), TakeEnd(h, Max(size, 1), Capacity(size));
    assert g == Allocate(h, size).0;
    TilesExtend(Blocks(h), start, h.next, capacity);
    AddedBlock(h, g, Block(capacity, h.next));
    BumpedTables(h, g, Max(size, 1), capacity);
  }

  lemma BumpedTables(h: Heap, g: Heap, wanted: uint32, capacity: uint32)
    requires TablesSound(h) && g == TakeEnd(h, wanted, capacity) && 1 <= wanted <= capacity <= wanted as int + 31
    requires forall b | b in h.free :: b.address != h.next
    ensures TablesSound(g)
  {
  }

  lemma InvFits(start: uint32, h: Heap)
    requires Inv(start, h)
    ensures AddressesFit(h)
  {
    forall b | b in h.free ensures b.address + b.size < WRAP {
      assert b in Blocks(h) && WellPlaced(b, start, h.next);
    }
  }

  /** A size that wraps when it is rounded up gets a block of no capacity. */
  lemma RoundingWrapBreaks(start: uint32, h: Heap, size: uint32)
    requires Inv(start, h) && AddressesFit(h) && size > 0xffff_fff0
    ensures !Inv(start, Allocate(h, size).0)
  {
    var k := LowerBound(h.free, 0);
    assert Capacity(size) == 0;
    var (g, address) := Allocate(h, size);
    if k < |h.free| {
      assert h.free[k] in h.free;
    }
    assert address in g.sizes && g.sizes[address] > g.capacities[address];
  }

  /** A bump that wraps puts the block above the new end of the heap. */
  lemma BumpWrapBreaks(start: uint32, h: Heap, size: uint32)
    requires Inv(start, h) && AddressesFit(h) && size <= 0xffff_fff0
    requires LowerBound(h.free, Capacity(size)) == |h.free| && h.next + Capacity(size) >= WRAP
    ensures !Inv(start, Allocate(h, size).0)
  {
    var g := Allocate(h, size).0;
    assert (h.next + Capacity(size)) % WRAP == h.next + Capacity(size) - WRAP < h.next;
    LiveBlock(g, h.next);
    assert !WellPlaced(Block(Capacity(size), h.next), start, g.next);
  }

  /** An allocation keeps the tiling exactly when its 32-bit sums do not wrap. */
  lemma AllocateKeepsInvIff(start: uint32, h: Heap, size: uint32)
    requires Inv(start, h)
    ensures AddressesFit(h)
    ensures Inv(start, Allocate(h, size).0) <==> NoWrap(h, size)
  {
    InvFits(start, h);
    if size > 0xffff_fff0 {
      RoundingWrapBreaks(start, h, size);
    } else if LowerBound(h.free, Capacity(size)) < |h.free| {
      TakeKeepsInv(start, h, size);
    } else if h.next + Capacity(size) >= WRAP {
      BumpWrapBreaks(start, h, size);
    } else if h.next + Capacity(size) <= h.limit {
      BumpKeepsInv(start, h, size);
    }
  }

  lemma ReleaseTables(h: Heap, address: uint32)
    requires TablesSound(h) && address != 0 && address in h.sizes
    ensures var g := Release(h, address); var b := Block(h.capacities[address], address);
            && TablesSound(g) && (forall e :: e in g.free <==> e in h.free || e == b)
            && g.capacities == h.capacities - {address}
  {
    InsertSound(h.free, Block(h.capacities[address], address));
  }

  lemma ReleasedBlocks(h: Heap, g: Heap, address: uint32)
    requires address in h.capacities && g.capacities == h.capacities - {address}
    requires forall e :: e in g.free <==> e in h.free || e == Block(h.capacities[address], address)
    ensures Blocks(g) == Blocks(h)
  {
    LiveBlock(h, address);
    forall e ensures e in Blocks(g) <==> e in Blocks(h) {
      if e in (set a | a in g.capacities :: Block(g.capacities[a], a)) {
        var a :| a in g.capacities && e == Block(g.capacities[a], a);
        LiveBlock(h, a);
      }
      if e in (set a | a in h.capacities :: Block(h.capacities[a], a)) {
        var a :| a in h.capacities && e == Block(h.capacities[a], a);
        if a != address {
          LiveBlock(g, a);
        }
      }
    }
  }

  lemma ReleaseKeepsInv(start: uint32, h: Heap, address: uint32)
    requires Inv(start, h)
    ensures Inv(start, Release(h, address))
    ensures Blocks(Release(h, address)) == Blocks(h)
  {
    if address != 0 && address in h.sizes {
      ReleaseTables(h, address);
      ReleasedBlocks(h, Release(h, address), address);
    }
  }

  // ---- Any sequence of calls ----

  datatype Call = Alloc(size: uint32) | Free(address: uint32)

  function Step(h: Heap, c: Call): Heap
    requires AddressesFit(h)
  {
    match c
    case Alloc(size) => Allocate(h, size).0
    case Free(address) => Release(h, address)
  }

  /** Every allocation in the run meets the no-wrap condition when it is made. */
  predicate RunsWithoutWrap(h: Heap, calls: seq<Call>)
    decreases |calls|
  {
    AddressesFit(h) && (calls != [] ==>
      (calls[0].Alloc? ==> NoWrap(h, calls[0].size)) && RunsWithoutWrap(Step(h, calls[0]), calls[1..]))
  }

  function Run(h: Heap, calls: seq<Call>): Heap
    requires RunsWithoutWrap(h, calls)
    decreases |calls|
  {
    if calls == [] then h else Run(Step(h, calls[0]), calls[1..])
  }

  lemma {:induction false} RunKeepsInv(start: uint32, h: Heap, calls: seq<Call>)
    requires Inv(start, h) && RunsWithoutWrap(h, calls)
    ensures Inv(start, Run(h, calls))
    decreases |calls|
  {
    if calls == [] {
    } else {
      match calls[0] {
        case Alloc(size) => AllocateKeepsInvIff(start, h, size);
        case Free(address) => ReleaseKeepsInv(start, h, address);
      }
      RunKeepsInv(start, Step(h, calls[0]), calls[1..]);
    }
  }

  /** From an empty heap, every used byte is in exactly one block after any run. */
  lemma EveryByteInOneBlock(limit: uint32, start: uint32, calls: seq<Call>, x: nat)
    requires 0 < start <= limit && start % 16 == 0
    requires var h := Heap(limit, start, map[], map[], []); RunsWithoutWrap(h, calls) && start <= x < Run(h, calls).next
    ensures var h := Run(Heap(limit, start, map[], map[], []), calls);
            exists b :: b in Blocks(h) && Holds(b, x) && forall c | c in Blocks(h) && Holds(c, x) :: c == b
  {
    var h0 := Heap(limit, start, map[], map[], []);
    assert Blocks(h0) == {};
    RunKeepsInv(start, h0, calls);
    var h := Run(h0, calls);
    assert Covered(Blocks(h), x);
    var b :| b in Blocks(h) && Holds(b, x);
    forall c | c in Blocks(h) && Holds(c, x) ensures c == b {
      assert c != b ==> Apart(c, b);
    }
  }

  // ---- What one allocation gives ----

  /** Fails exactly when no free block and not the rest of the heap can hold the request. */
  lemma AllocateFailsIff(start: uint32, h: Heap, size: uint32)
    requires Inv(start, h) && NoWrap(h, size)
    ensures AddressesFit(h)
    ensures Allocate(h, size).1 == 0 <==>
            (forall b | b in h.free :: b.size < Capacity(size)) && h.next + Capacity(size) > h.limit
    ensures Allocate(h, size).1 == 0 ==> Allocate(h, size).0 == h
  {
    InvFits(start, h);
    var k := LowerBound(h.free, Capacity(size));
    if k < |h.free| {
      assert h.free[k] in Blocks(h) && WellPlaced(h.free[k], start, h.next);
      assert h.free[k] in h.free;
    }
  }

  /** The new block is listed with its size, wastes at most 31 bytes, and no other entry changes. */
  lemma AllocateRecords(start: uint32, h: Heap, size: uint32)
    requires Inv(start, h) && NoWrap(h, size)
    ensures AddressesFit(h)
    ensures var (g, a) := Allocate(h, size);
            a != 0 ==>
              && a !in h.sizes && a in g.capacities && g.sizes == h.sizes[a := Max(size, 1)]
              && g.capacities == h.capacities[a := g.capacities[a]]
              && Max(size, 1) <= g.capacities[a] <= Max(size, 1) + 31
  {
    InvFits(start, h);
    CapacityBounds(size);
    NothingAtEnd(start, h);
    var k := LowerBound(h.free, Capacity(size));
    if k < |h.free| {
      assert h.free[k] in h.free && h.free[k] in Blocks(h) && WellPlaced(h.free[k], start, h.next);
    }
  }

  /** The smallest adequate free block is used when there is one, the end of the heap otherwise. */
  lemma AllocateIsBestFit(start: uint32, h: Heap, size: uint32)
    requires Inv(start, h) && NoWrap(h, size)
    ensures AddressesFit(h)
    ensures var (g, a) := Allocate(h, size);
            a != 0 ==>
              if exists b :: b in h.free && b.size >= Capacity(size) then
                exists b :: b in h.free && b.address == a && b.size >= Capacity(size) && Smallest(h.free, b, Capacity(size))
              else a == h.next
  {
    InvFits(start, h);
    var k := LowerBound(h.free, Capacity(size));
    if k < |h.free| {
      var b := h.free[k];
      assert b in h.free;
      forall c | c in h.free && c.size >= Capacity(size) ensures b.size <= c.size {
        var i :| 0 <= i < |h.free| && h.free[i] == c;
        assert i >= k;
      }
    }
  }

  predicate Smallest(free: seq<Block>, b: Block, size: nat) {
    forall c | c in free && c.size >= size :: b.size <= c.size
  }

  // ---- Reallocation ----

  lemma BlockInRange(start: uint32, h: Heap, a: uint32)
    requires Inv(start, h) && a in h.capacities
    ensures start <= a && a + h.capacities[a] <= h.limit && h.sizes[a] <= h.capacities[a]
  {
    LiveBlock(h, a);
    assert WellPlaced(Block(h.capacities[a], a), start, h.next);
  }

  lemma LiveApart(start: uint32, h: Heap, a: uint32, b: uint32)
    requires Inv(start, h) && a in h.capacities && b in h.capacities && a != b
    ensures a + h.capacities[a] <= b || b + h.capacities[b] <= a
  {
    LiveBlock(h, a);
    LiveBlock(h, b);
    assert Apart(Block(h.capacities[a], a), Block(h.capacities[b], b));
  }

  lemma FillElsewhere(m: seq<byte>, at: nat, bytes: seq<byte>, lo: nat, n: nat)
    requires at + |bytes| <= |m| && lo + n <= |m| && (lo + n <= at || at + |bytes| <= lo)
    ensures Fill(m, at, bytes)[lo..lo + n] == m[lo..lo + n]
  {
  }

  /** What the realloc entry points promise about the block, the other blocks and memory. */
  ghost predicate Reallocated(h: Heap, m: seq<byte>, address: uint32, size: uint32, zeroFill: bool,
                              h2: Heap, m2: seq<byte>, result: uint32)
  {
    var oldSize := AllocationSize(h, address);
    && |m2| == |m|
    && (result == 0 ==> h2 == h && m2 == m)
    && (result != 0 ==>
          && result !in h.sizes && result in h2.sizes && result in h2.capacities && h2.sizes[result] == Max(size, 1)
          && result + h2.capacities[result] <= |m|
          && OthersKept(h, m, address, h2, m2)
          && (address != 0 && oldSize != 0 ==>
                && address !in h2.sizes && address in h.capacities && Block(h.capacities[address], address) in h2.free
                && var n := Min(oldSize, size);
                   && address + n <= |m| && n <= h2.capacities[result]
                   && m2[result..result + n] == m[address..address + n]
                   && (zeroFill ==> AllZero(m2, result + n, result + h2.capacities[result])))
          && ((address == 0 || oldSize == 0) && zeroFill ==> AllZero(m2, result, result + h2.capacities[result])))
  }

  predicate AllZero(m: seq<byte>, lo: nat, hi: nat)
    requires lo <= hi <= |m|
  {
    forall x | lo <= x < hi :: m[x] == 0
  }

  /** Every live block but `address` keeps its size and its bytes. */
  ghost predicate OthersKept(h: Heap, m: seq<byte>, address: uint32, h2: Heap, m2: seq<byte>) {
    |m2| == |m| &&
    forall o | o in h.sizes && o in h.capacities && o != address ::
      && o in h2.sizes && h2.sizes[o] == h.sizes[o]
      && o + h.capacities[o] <= |m| && m2[o..o + h.capacities[o]] == m[o..o + h.capacities[o]]
  }

  /** What a realloc can rely on once its new block is allocated. */
  lemma AfterAllocate(start: uint32, h: Heap, size: uint32, address: uint32)
    requires Inv(start, h) && NoWrap(h, size)
    ensures AddressesFit(h)
    ensures var (g, a) := Allocate(h, size);
            && Inv(start, g) && g.limit == h.limit && (a == 0 ==> g == h)
            && (a != 0 ==>
                  && a !in h.sizes && a in g.capacities && g.sizes == h.sizes[a := Max(size, 1)]
                  && g.capacities == h.capacities[a := g.capacities[a]]
                  && Max(size, 1) <= g.capacities[a] && a + g.capacities[a] <= g.limit)
            && (a != 0 && address in h.sizes ==>
                  && address in h.capacities && address + h.sizes[address] <= address + h.capacities[address] <= h.limit
                  && (address + h.capacities[address] <= a || a + g.capacities[a] <= address))
  {
    AllocateKeepsInvIff(start, h, size);
    AllocateRecords(start, h, size);
    AllocateFailsIff(start, h, size);
    var (g, a) := Allocate(h, size);
    if a != 0 {
      BlockInRange(start, g, a);
      if address in h.sizes {
        BlockInRange(start, h, address);
        LiveApart(start, g, address, a);
      }
    }
  }

  /** Every live block lies inside memory, away from the `c` bytes at `result`, and `m1` agrees with `m` on it. */
  ghost predicate Beside(h: Heap, m: seq<byte>, m1: seq<byte>, result: nat, c: nat) {
    |m1| == |m| &&
    forall o | o in h.sizes && o in h.capacities ::
      && o + h.capacities[o] <= |m| && (o + h.capacities[o] <= result || result + c <= o)
      && m1[o..o + h.capacities[o]] == m[o..o + h.capacities[o]]
  }

  lemma CopiedBytes(m: seq<byte>, m1: seq<byte>, at: nat, lo: nat, n: nat, k: nat)
    requires |m| == |m1| && lo + k <= |m| && n <= k && at + n <= |m| && m1[lo..lo + k] == m[lo..lo + k]
    ensures Fill(m1, at, m1[lo..lo + n])[at..at + n] == m[lo..lo + n]
  {
    assert m1[lo..lo + n] == m1[lo..lo + k][..n] == m[lo..lo + k][..n] == m[lo..lo + n];
  }

  lemma AllocateBeside(start: uint32, h: Heap, m: seq<byte>, size: uint32, zeroFill: bool, m1: seq<byte>, result: uint32)
    requires Inv(start, h) && NoWrap(h, size) && |m| == h.limit && AddressesFit(h)
    requires var (h1, a) := Allocate(h, size);
             && a == result != 0 && result in h1.capacities && result + h1.capacities[result] <= |m|
             && m1 == if zeroFill then Fill(m, result, Zeros(h1.capacities[result])) else m
    ensures var c := Allocate(h, size).0.capacities[result];
            Beside(h, m, m1, result, c) && (zeroFill ==> AllZero(m1, result, result + c))
  {
    var c := Allocate(h, size).0.capacities[result];
    forall o | o in h.sizes && o in h.capacities
      ensures o + h.capacities[o] <= |m| && (o + h.capacities[o] <= result || result + c <= o)
      ensures m1[o..o + h.capacities[o]] == m[o..o + h.capacities[o]]
    {
      AllocatedApart(start, h, size, result, c, o);
      ZeroedBeside(m, m1, zeroFill, result, c, o, h.capacities[o]);
    }
  }

  /** A new block lies apart from every live one. */
  lemma AllocatedApart(start: uint32, h: Heap, size: uint32, result: uint32, c: uint32, o: uint32)
    requires Inv(start, h) && NoWrap(h, size) && AddressesFit(h) && o in h.sizes && o in h.capacities
    requires var (g, a) := Allocate(h, size); a == result != 0 && result in g.capacities && c == g.capacities[result]
    ensures o + h.capacities[o] <= h.limit && (o + h.capacities[o] <= result || result + c <= o)
  {
    AfterAllocate(start, h, size, o);
  }

  lemma ZeroedBeside(m: seq<byte>, m1: seq<byte>, zeroFill: bool, at: nat, c: nat, o: nat, k: nat)
    requires at + c <= |m| && o + k <= |m| && (o + k <= at || at + c <= o)
    requires m1 == if zeroFill then Fill(m, at, Zeros(c)) else m
    ensures m1[o..o + k] == m[o..o + k]
  {
    if zeroFill {
      FillElsewhere(m, at, Zeros(c), o, k);
    }
  }

  /** `h1` is `h` with one more live block of `c` bytes at `result`. */
  ghost predicate OneMore(h: Heap, h1: Heap, result: uint32, size: uint32, c: uint32) {
    && result !in h.sizes && h1.sizes == h.sizes[result := Max(size, 1)]
    && h1.capacities == h.capacities[result := c] && Max(size, 1) <= c
  }

  lemma ReallocateWithoutCopy(h: Heap, m: seq<byte>, address: uint32, size: uint32, zeroFill: bool,
                              h1: Heap, m1: seq<byte>, result: uint32, c: uint32)
    requires result != 0 && OneMore(h, h1, result, size, c) && result + c <= |m|
    requires Beside(h, m, m1, result, c) && (zeroFill ==> AllZero(m1, result, result + c))
    requires address == 0 || AllocationSize(h, address) == 0
    ensures Reallocated(h, m, address, size, zeroFill, h1, m1, result)
  {
  }

  lemma ReallocateWithCopy(h: Heap, m: seq<byte>, address: uint32, size: uint32, zeroFill: bool,
                           h1: Heap, m1: seq<byte>, result: uint32, c: uint32, n: nat)
    requires result != 0 && OneMore(h, h1, result, size, c) && result + c <= |m| && TablesSound(h1)
    requires Beside(h, m, m1, result, c) && (zeroFill ==> AllZero(m1, result, result + c))
    requires address != 0 && address in h.sizes && address in h.capacities && h.sizes[address] != 0
    requires h.sizes[address] <= h.capacities[address] && n == Min(h.sizes[address], size)
    ensures address + n <= |m1| && result + n <= |m1|
    ensures Reallocated(h, m, address, size, zeroFill, Release(h1, address), Fill(m1, result, m1[address..address + n]), result)
  {
    var bytes := m1[address..address + n];
    var m2, h2 := Fill(m1, result, bytes), Release(h1, address);
    CopiedBytes(m, m1, result, address, n, h.capacities[address]);
    CopyKeepsOthers(h, m, address, size, h1, m1, result, c, bytes);
    ReleaseTables(h1, address);
    if zeroFill {
      CopyKeepsZeros(m1, result, bytes, result + c);
    }
  }

  lemma CopyKeepsZeros(m: seq<byte>, at: nat, bytes: seq<byte>, end: nat)
    requires at + |bytes| <= end <= |m| && AllZero(m, at, end)
    ensures AllZero(Fill(m, at, bytes), at + |bytes|, end)
  {
  }

  lemma CopyKeepsOthers(h: Heap, m: seq<byte>, address: uint32, size: uint32, h1: Heap, m1: seq<byte>, result: uint32,
                        c: uint32, bytes: seq<byte>)
    requires OneMore(h, h1, result, size, c) && result + c <= |m| && Beside(h, m, m1, result, c) && |bytes| <= c
    ensures OthersKept(h, m, address, Release(h1, address), Fill(m1, result, bytes))
  {
    var m2 := Fill(m1, result, bytes);
    forall o | o in h.sizes && o in h.capacities && o != address
      ensures m2[o..o + h.capacities[o]] == m[o..o + h.capacities[o]]
    {
      FillElsewhere(m1, result, bytes, o, h.capacities[o]);
    }
  }

  lemma ReallocateKeepsInv(start: uint32, h: Heap, address: uint32, size: uint32)
    requires Inv(start, h) && NoWrap(h, size) && AddressesFit(h)
    ensures var g := Allocate(h, size).0;
            && Inv(start, g) && Inv(start, Release(g, address)) && g.limit == h.limit
  {
    AfterAllocate(start, h, size, address);
    ReleaseKeepsInv(start, Allocate(h, size).0, address);
  }

  predicate Copies(h: Heap, address: uint32, result: uint32) {
    address != 0 && result != 0 && AllocationSize(h, address) != 0
  }

  lemma CopiedOutcome(start: uint32, h: Heap, m: seq<byte>, address: uint32, size: uint32, zeroFill: bool,
                      h1: Heap, m1: seq<byte>, result: uint32, n: nat) returns (h2: Heap, m2: seq<byte>)
    requires Inv(start, h) && NoWrap(h, size) && |m| == h.limit && AddressesFit(h) && (h1, result) == Allocate(h, size)
    requires result in h1.capacities && result + h1.capacities[result] <= |m|
    requires m1 == if zeroFill then Fill(m, result, Zeros(h1.capacities[result])) else m
    requires Copies(h, address, result) && n == Min(AllocationSize(h, address), size)
    ensures address + n <= |m1| && result + n <= |m1|
    ensures h2 == Release(h1, address) && m2 == Fill(m1, result, m1[address..address + n])
    ensures Reallocated(h, m, address, size, zeroFill, h2, m2, result)
  {
    AfterAllocate(start, h, size, address);
    AllocateBeside(start, h, m, size, zeroFill, m1, result);
    ReallocateWithCopy(h, m, address, size, zeroFill, h1, m1, result, h1.capacities[result], n);
    h2, m2 := Release(h1, address), Fill(m1, result, m1[address..address + n]);
  }

  /** The old block is copied and freed exactly when both blocks exist; either way the outcome is the promised one. */
  lemma ReallocateOutcome(start: uint32, h: Heap, m: seq<byte>, address: uint32, size: uint32, zeroFill: bool,
                          h1: Heap, m1: seq<byte>, result: uint32) returns (h2: Heap, m2: seq<byte>)
    requires Inv(start, h) && NoWrap(h, size) && |m| == h.limit && AddressesFit(h) && (h1, result) == Allocate(h, size)
    requires result != 0 ==> result in h1.capacities && result + h1.capacities[result] <= |m|
    requires m1 == if zeroFill && result != 0 then Fill(m, result, Zeros(h1.capacities[result])) else m
    ensures Copies(h, address, result) ==>
              var n := Min(AllocationSize(h, address), size);
              && address + n <= |m1| && result + n <= |m1|
              && h2 == Release(h1, address) && m2 == Fill(m1, result, m1[address..address + n])
    ensures !Copies(h, address, result) ==> h2 == h1 && m2 == m1
    ensures Reallocated(h, m, address, size, zeroFill, h2, m2, result)
  {
    if Copies(h, address, result) {
      h2, m2 := CopiedOutcome(start, h, m, address, size, zeroFill, h1, m1, result, Min(AllocationSize(h, address), size));
    } else {
      h2, m2 := h1, m1;
      FreshOutcome(start, h, m, address, size, zeroFill, h1, m1, result);
    }
  }

  lemma ReallocateSound(start: uint32, h: Heap, m: seq<byte>, address: uint32, size: uint32, zeroFill: bool,
                        h1: Heap, m1: seq<byte>, result: uint32) returns (h2: Heap, m2: seq<byte>)
    requires Inv(start, h) && NoWrap(h, size) && |m| == h.limit && AddressesFit(h) && (h1, result) == Allocate(h, size)
    requires result != 0 ==> result in h1.capacities && result + h1.capacities[result] <= |m|
    requires m1 == if zeroFill && result != 0 then Fill(m, result, Zeros(h1.capacities[result])) else m
    ensures Copies(h, address, result) ==>
              var n := Min(AllocationSize(h, address), size);
              && address + n <= |m1| && result + n <= |m1|
              && h2 == Release(h1, address) && m2 == Fill(m1, result, m1[address..address + n])
    ensures !Copies(h, address, result) ==> h2 == h1 && m2 == m1
    ensures Reallocated(h, m, address, size, zeroFill, h2, m2, result)
    ensures Inv(start, h2) && |m2| == h2.limit == h.limit
  {
    ReallocateKeepsInv(start, h, address, size);
    h2, m2 := ReallocateOutcome(start, h, m, address, size, zeroFill, h1, m1, result);
  }

  lemma FreshOutcome(start: uint32, h: Heap, m: seq<byte>, address: uint32, size: uint32, zeroFill: bool,
                     h1: Heap, m1: seq<byte>, result: uint32)
    requires Inv(start, h) && NoWrap(h, size) && |m| == h.limit && AddressesFit(h) && (h1, result) == Allocate(h, size)
    requires result != 0 ==> result in h1.capacities && result + h1.capacities[result] <= |m|
    requires m1 == if zeroFill && result != 0 then Fill(m, result, Zeros(h1.capacities[result])) else m
    requires result == 0 || address == 0 || AllocationSize(h, address) == 0
    ensures Reallocated(h, m, address, size, zeroFill, h1, m1, result)
  {
    AfterAllocate(start, h, size, address);
    if result != 0 {
      AllocateBeside(start, h, m, size, zeroFill, m1, result);
      ReallocateWithoutCopy(h, m, address, size, zeroFill, h1, m1, result, h1.capacities[result]);
    }
  }
}
