/** kmalloc.c: size-class pools carved out of demand-paged heap pages. */
module KernelHeap {
  import opened Geometry
  import MemoryState
  import MemoryLayout
  import opened MachineWords
  import FramePool
  import opened VirtualPages
  import opened HeapBlocks
  import opened HeapMemory

  ghost predicate PagesCover(h: Heap, s: MemoryState.State) {
    forall v :: v in h.uses ==> v in s.pages
  }

  /** Address space and frames for `n` more pages, one of them touched at once. */
  ghost predicate Room(s: MemoryState.State, n: nat) {
    MemoryState.CanReserve(s, n) && MemoryState.Cost(s, n) + 1 <= FramePool.Available(s.pool)
  }

  /** Fresh pages at the heap top belong to nobody and hold nothing yet. */
  lemma NewPages(s: MemoryState.State, vm: VMem, h: Heap, n: nat)
    requires MemoryState.Inv(s) && MemoryState.CanReserve(s, n) && PagesCover(h, s)
    requires forall v :: v in vm ==> v in s.pages
    ensures var t := MemoryState.ReservePages(s, n);
            && (forall v :: s.top <= v < s.top + n ==>
                  Unused(h, v) && v !in vm && v in t.pages && t.pages[v] == MemoryState.Demand)
            && (forall v :: v in s.pages ==> v in t.pages && t.pages[v] == s.pages[v])
            && 0x1000_0000 <= s.top && s.top + n <= 0x8_0000_0000
            && FramePool.Available(t.pool) == FramePool.Available(s.pool) - MemoryState.Cost(s, n)
  {
    MemoryState.TopInHeap(s);
    hide MemoryState.Owned, MemoryState.ShapeDownTo, MemoryState.Cost, MemoryState.ReservePages;
    forall v | s.top <= v < s.top + n
      ensures Unused(h, v) && v !in vm
      ensures v in MemoryState.ReservePages(s, n).pages && MemoryState.ReservePages(s, n).pages[v] == MemoryState.Demand
    {
      MemoryState.ReservedPages(s, n, v);
    }
    forall v | v in s.pages
      ensures v in MemoryState.ReservePages(s, n).pages && MemoryState.ReservePages(s, n).pages[v] == s.pages[v]
    {
      MemoryState.ReservedPages(s, n, v);
    }
  }

  /** MMU_alloc_pages for `n` pages, the first of which kmalloc then writes to. */
  ghost function TakePages(s: MemoryState.State, n: nat): MemoryState.State
    requires MemoryState.Inv(s) && (n > 0 ==> Room(s, n))
  {
    if n == 0 then s
    else
      FreshTop(s, n);
      MemoryState.Touched(MemoryState.ReservePages(s, n), s.top)
  }

  /** Taking pages loses no frame. */
  lemma TakeKeepsFrames(s: MemoryState.State, n: nat)
    requires MemoryState.Inv(s) && Room(s, n) && n > 0
    ensures TakePages(s, n).own.Keys == s.own.Keys
  {
    hide MemoryState.Inv, MemoryState.Cost, MemoryState.ReservePages;
    FreshTop(s, n);
    MemoryState.FaultInKeeps(MemoryState.ReservePages(s, n), s.top);
  }

  lemma FreshTop(s: MemoryState.State, n: nat)
    requires MemoryState.Inv(s) && Room(s, n) && n > 0
    ensures var t := MemoryState.ReservePages(s, n);
            && s.top in t.pages && t.pages[s.top] == MemoryState.Demand
            && t.pool.stack != [] && FramePool.Available(t.pool) > 0
  {
    hide MemoryState.Inv, MemoryState.Cost, MemoryState.ReservePages;
    MemoryState.ReservedPages(s, n, s.top);
    MemoryState.TopInHeap(MemoryState.ReservePages(s, n));
  }

  lemma TakeNone(s: MemoryState.State)
    requires MemoryState.Inv(s)
    ensures TakePages(s, 0) == s
  {
  }

  lemma TakeMany(s: MemoryState.State, n: nat)
    requires MemoryState.Inv(s) && Room(s, n) && n > 0
    requires var t := MemoryState.ReservePages(s, n);
             && s.top in t.pages && t.pool.stack != [] && FramePool.Available(t.pool) > 0
    ensures TakePages(s, n) == MemoryState.Touched(MemoryState.ReservePages(s, n), s.top)
  {
    hide MemoryState.Inv, MemoryState.ReservePages, MemoryState.Touched, MemoryState.Cost;
  }

  lemma TakeOne(s: MemoryState.State)
    requires MemoryState.Inv(s) && Room(s, 1)
    ensures var t := MemoryState.ReservePages(s, 1);
            && s.top in t.pages && t.pages[s.top] == MemoryState.Demand
            && t.pool.stack != [] && FramePool.Available(t.pool) > 0
            && TakePages(s, 1) == MemoryState.Touched(t, s.top)
  {
    hide MemoryState.Inv, MemoryState.ReservePages, MemoryState.Touched, MemoryState.Cost;
    FreshTop(s, 1);
  }

  /** Room for `n` add_page calls in a row. */
  ghost predicate RoomForPools(s: MemoryState.State, n: nat) {
    MemoryState.CanReserve(s, n) && MemoryState.Cost(s, n) + n <= FramePool.Available(s.pool)
  }

  lemma RoomForOne(s: MemoryState.State, n: nat)
    requires MemoryState.Inv(s) && RoomForPools(s, n) && n > 0
    ensures Room(s, 1)
  {
    MemoryState.TopInHeap(s);
    MemoryState.TableCountMonotone(s.top + 1 - MemoryState.HEAP_BASE, s.top + n - MemoryState.HEAP_BASE);
    hide MemoryState.TableCount;
  }

  lemma RoomForRest(s: MemoryState.State, t: MemoryState.State, n: nat)
    requires MemoryState.Inv(s) && RoomForPools(s, n) && n > 0
    requires t.top == s.top + 1
    requires FramePool.Available(t.pool) == FramePool.Available(s.pool) - MemoryState.Cost(s, 1) - 1
    ensures RoomForPools(t, n - 1)
  {
    MemoryState.TopInHeap(s);
    hide MemoryState.TableCount, MemoryState.Inv, FramePool.Available;
  }

  lemma HeadLinked(vm: VMem, h: Heap, pools: seq<PoolEntry>, base: int, i: nat)
    requires InMemory(vm, h, pools, base) && i < POOLS && HeapBlocks.Inv(h) && h.lists[i] != []
    ensures h.lists[i][0] / 4096 in vm && VWord(vm, h.lists[i][0]) == NextFree(h.lists[i], 1)
    ensures h.lists[i][0] % 32 == 0 && h.lists[i][0] >= 4096
    ensures pools[i].head == h.lists[i][0]
  {
    assert PoolAt(h, pools, i) && LinkAt(vm, h, i, 0);
    FreeAligned(h, i, 0);
  }

  lemma PopUses(h: Heap, i: nat, bytes: int)
    requires i < POOLS && i < |h.lists| && i < |h.tallies| && h.lists[i] != []
    requires h.lists[i][0] in h.blocks && h.blocks[h.lists[i][0]].Free?
    ensures PopChunk(h, i, bytes).uses == h.uses
  {
  }

  lemma LargeAddress(v: int, n: nat)
    requires 0 < v && v + n <= 0x8_0000_0000
    ensures 4096 * v % 8 == 0 && 4096 * v / 4096 == v && (4096 * v + 8) / 4096 == v
    ensures 4096 * (v + n) < 0x1_0000_0000_0000_0000
  {
  }

  lemma KeptRefl(vm: VMem)
    ensures Kept(vm, vm)
  {
  }

  lemma KeptIsKeptBut(vm: VMem, vm': VMem, c: int)
    requires Kept(vm, vm')
    ensures KeptBut(vm, vm', c)
  {
    hide VWord;
  }

  /** A refill keeps every word; the chunk taken afterwards may lie in the new page. */
  lemma KeptThen(vm: VMem, vm1: VMem, vm2: VMem, c: int)
    requires Kept(vm, vm1) && KeptBut(vm1, vm2, c)
    ensures KeptBut(vm, vm2, c)
  {
    hide VWord;
  }

  lemma AddLargeUses(h: Heap, v: int, n: nat, bytes: int, s: MemoryState.State, t: MemoryState.State)
    requires PagesCover(h, s) && (forall w :: w in s.pages ==> w in t.pages)
    requires forall w :: v <= w < v + n ==> w in t.pages
    ensures PagesCover(AddLarge(h, v, n, bytes), t)
  {
  }

  lemma RoomParts(s: MemoryState.State, n: nat)
    requires Room(s, n)
    ensures MemoryState.CanReserve(s, n) && MemoryState.Cost(s, n) + 1 <= FramePool.Available(s.pool)
  {
  }

  /** `n` pages more at the heap top: reserved, without contents and nobody's. */
  ghost predicate RunTaken(s: MemoryState.State, t: MemoryState.State, h: Heap, vm: VMem, n: nat) {
    && n > 0 && MemoryState.Inv(s) && Room(s, n) && t == MemoryState.ReservePages(s, n)
    && 0 < s.top && s.top + n <= 0x8_0000_0000
    && FramePool.Available(t.pool) == FramePool.Available(s.pool) - MemoryState.Cost(s, n)
    && FramePool.Available(t.pool) > 0 && t.top == s.top + n
    && (forall w :: w in s.pages ==> w in t.pages)
    && (forall v :: s.top <= v < s.top + n ==>
          Unused(h, v) && v !in vm && v in t.pages && t.pages[v] == MemoryState.Demand)
  }

  lemma RunTakenIs(s: MemoryState.State, t: MemoryState.State, h: Heap, vm: VMem, n: nat)
    requires MemoryState.Inv(s) && Room(s, n) && n > 0 && PagesCover(h, s) && forall v :: v in vm ==> v in s.pages
    requires MemoryState.CanReserve(s, n) && t == MemoryState.ReservePages(s, n)
    requires 0 < s.top
    ensures RunTaken(s, t, h, vm, n)
  {
    hide MemoryState.Inv, MemoryState.CanReserve, MemoryState.ReservePages, MemoryState.Cost, FramePool.Available,
         Unused, PagesCover;
    NewPages(s, vm, h, n);
  }

  lemma RunMeans(s: MemoryState.State, t: MemoryState.State, h: Heap, vm: VMem, n: nat)
    requires RunTaken(s, t, h, vm, n)
    ensures n > 0 && MemoryState.Inv(s) && MemoryState.CanReserve(s, n) && t == MemoryState.ReservePages(s, n)
    ensures 0 < s.top && s.top + n <= 0x8_0000_0000
    ensures FramePool.Available(t.pool) > 0 && t.top == s.top + n
    ensures forall w :: w in s.pages ==> w in t.pages
    ensures forall v :: s.top <= v < s.top + n ==>
              Unused(h, v) && v !in vm && v in t.pages && t.pages[v] == MemoryState.Demand
  {
    hide MemoryState.Inv, MemoryState.CanReserve, MemoryState.ReservePages, MemoryState.Cost, FramePool.Available,
         Unused;
  }

  /** The same for one page. */
  lemma PageMeans(s: MemoryState.State, t: MemoryState.State, h: Heap, vm: VMem)
    requires RunTaken(s, t, h, vm, 1)
    ensures 0 < s.top < MemoryState.HEAP_LIMIT && Unused(h, s.top) && s.top !in vm
    ensures s.top in t.pages && t.pages[s.top] == MemoryState.Demand && FramePool.Available(t.pool) > 0
  {
    hide MemoryState.Inv, Room, MemoryState.ReservePages, MemoryState.Cost, FramePool.Available, Unused;
  }

  /** And touching it. */
  lemma PageTouched(s: MemoryState.State, t: MemoryState.State, u: MemoryState.State, h: Heap, vm: VMem)
    requires RunTaken(s, t, h, vm, 1) && s.top in t.pages && t.pages[s.top] == MemoryState.Demand
    requires t.pool.stack != [] && FramePool.Available(t.pool) > 0 && u == MemoryState.Touched(t, s.top)
    ensures PageTaken(s, u)
  {
    hide MemoryState.Inv, Room, MemoryState.ReservePages, MemoryState.Cost, FramePool.Available, Unused,
         MemoryState.Touched, TakePages;
    TakeOne(s);
    MemoryState.TouchedPages(t, s.top);
  }

  /** One page more at the heap top, reserved and touched. */
  ghost predicate PageTaken(s: MemoryState.State, t: MemoryState.State) {
    && MemoryState.Inv(s) && Room(s, 1) && t == TakePages(s, 1) && t.top == s.top + 1 && 0 < s.top
    && FramePool.Available(t.pool) == FramePool.Available(s.pool) - MemoryState.Cost(s, 1) - 1
    && s.top in t.pages && forall w :: w in s.pages ==> w in t.pages
  }

  lemma PageTakenMeans(s: MemoryState.State, t: MemoryState.State)
    requires PageTaken(s, t)
    ensures MemoryState.Inv(s) && Room(s, 1) && t == TakePages(s, 1) && t.top == s.top + 1 && 0 < s.top
    ensures FramePool.Available(t.pool) == FramePool.Available(s.pool) - MemoryState.Cost(s, 1) - 1
    ensures s.top in t.pages && forall w :: w in s.pages ==> w in t.pages
  {
    hide MemoryState.Inv, Room, TakePages, FramePool.Available, MemoryState.Cost;
  }

  /** Page `v` is cut into chunks of pool `i`, linked in order and at last to `head`. */
  ghost predicate Carved(vm: VMem, i: nat, v: int, head: int) {
    && i < POOLS && v in vm && Threaded(vm, i, v, ChunksPerPage(i) - 1)
    && VWord(vm, ChunkAt(i, v, ChunksPerPage(i) - 1)) == head
  }

  lemma CarvedIs(vm: VMem, i: nat, v: int, head: int)
    requires i < POOLS && v in vm && Threaded(vm, i, v, ChunksPerPage(i) - 1)
    requires VWord(vm, ChunkAt(i, v, ChunksPerPage(i) - 1)) == head
    ensures Carved(vm, i, v, head)
  {
    hide VWord, Threaded;
  }

  lemma CarvedMeans(vm: VMem, i: nat, v: int, head: int)
    requires Carved(vm, i, v, head)
    ensures i < POOLS && v in vm && Threaded(vm, i, v, ChunksPerPage(i) - 1)
    ensures VWord(vm, ChunkAt(i, v, ChunksPerPage(i) - 1)) == head
  {
    hide VWord, Threaded;
  }

  /** Two words written, at `a` and behind it. */
  ghost predicate HeaderWritten(vm: VMem, vm': VMem, a: int, pool: int, size: int) {
    exists half: VMem :: Wrote(vm, half, a, pool) && Wrote(half, vm', a + 8, size)
  }

  lemma HeaderIs(vm: VMem, half: VMem, vm': VMem, a: int, pool: int, size: int)
    requires Wrote(vm, half, a, pool) && Wrote(half, vm', a + 8, size)
    ensures HeaderWritten(vm, vm', a, pool, size)
  {
    hide Wrote;
  }

  lemma HeaderHalf(vm: VMem, vm': VMem, a: int, pool: int, size: int) returns (half: VMem)
    requires HeaderWritten(vm, vm', a, pool, size)
    ensures Wrote(vm, half, a, pool) && Wrote(half, vm', a + 8, size)
  {
    hide Wrote;
    half :| Wrote(vm, half, a, pool) && Wrote(half, vm', a + 8, size);
  }

  /** The head of a pool with something available, before it is taken. */
  lemma HeadFacts(vm: VMem, h: Heap, pools: seq<PoolEntry>, base: int, i: nat, bytes: int)
    requires HeapBlocks.Inv(h) && InMemory(vm, h, pools, base) && i < POOLS && Avail(h, i) > 0
    requires HEADER < bytes && BestPool(bytes) == i
    ensures |pools| == POOLS && |h.lists| == POOLS && |h.tallies| == POOLS
    ensures h.lists[i] != [] && h.lists[i][0] in h.blocks && h.blocks[h.lists[i][0]].Free?
    ensures var c := h.lists[i][0];
            && pools[i].head == c && c / 4096 in vm && VWord(vm, c) == NextFree(h.lists[i], 1)
            && VWord(vm, c) == vm[c / 4096][c % 4096 / 8]
            && c >= 4096 && c % 8 == 0 && (c + 8) / 4096 == c / 4096
    ensures HeapBlocks.Inv(PopChunk(h, i, bytes))
  {
    hide HeapBlocks.Inv, InMemory, Avail, BestPool, PopChunk;
    PopChunkKeeps(h, i, bytes);
    PoolInMemory(vm, h, pools, base, i);
    HeadLinked(vm, h, pools, base, i);
    HeaderAligned(h, h.lists[i][0]);
  }

  /** The head of pool `i`, a free chunk, was taken for `bytes`. */
  ghost predicate ChunkTaken(h0: Heap, h: Heap, i: nat, bytes: int, c: int) {
    && i < POOLS && |h0.lists| == POOLS && |h0.tallies| == POOLS
    && h0.lists[i] != [] && c == h0.lists[i][0] && c in h0.blocks && h0.blocks[c].Free?
    && h == PopChunk(h0, i, bytes)
  }

  lemma ChunkIs(h0: Heap, h: Heap, i: nat, bytes: int, c: int)
    requires i < POOLS && |h0.lists| == POOLS && |h0.tallies| == POOLS
    requires h0.lists[i] != [] && c == h0.lists[i][0] && c in h0.blocks && h0.blocks[c].Free?
    requires h == PopChunk(h0, i, bytes)
    ensures ChunkTaken(h0, h, i, bytes, c)
  {
    hide PopChunk;
  }

  lemma ChunkMeans(h0: Heap, h: Heap, i: nat, bytes: int, c: int)
    requires ChunkTaken(h0, h, i, bytes, c)
    ensures i < POOLS && |h0.lists| == POOLS && |h0.tallies| == POOLS
    ensures h0.lists[i] != [] && c == h0.lists[i][0] && c in h0.blocks && h0.blocks[c].Free?
    ensures h == PopChunk(h0, i, bytes)
  {
    hide PopChunk;
  }

  /** The head taken, its header written. */
  lemma ChunkWritten(vm: VMem, vm': VMem, h: Heap, pools: seq<PoolEntry>, base: int, i: nat, bytes: int,
                     s: MemoryState.State)
    requires HeapBlocks.Inv(h) && InMemory(vm, h, pools, base) && i < POOLS && Avail(h, i) > 0 && PagesCover(h, s)
    requires HEADER < bytes && BestPool(bytes) == i
    requires |h.lists| == POOLS && |h.tallies| == POOLS && |pools| == POOLS
    requires h.lists[i] != [] && h.lists[i][0] in h.blocks && h.blocks[h.lists[i][0]].Free?
    requires HeaderWritten(vm, vm', h.lists[i][0], base + 24 * i, bytes)
    ensures InMemory(vm', PopChunk(h, i, bytes),
                     pools[i := PoolEntry(pools[i].avail - 1, NextFree(h.lists[i], 1))], base)
    ensures KeptBut(vm, vm', h.lists[i][0]) && PagesCover(PopChunk(h, i, bytes), s)
  {
    hide *;
    var vm1 := HeaderHalf(vm, vm', h.lists[i][0], base + 24 * i, bytes);
    PopInMemory(vm, vm1, vm', h, pools, base, i, bytes);
    PopUses(h, i, bytes);
    SameUses(h, PopChunk(h, i, bytes), s);
  }

  /** Fresh pages taken for a large block, its header written. */
  lemma LargeWritten(vm: VMem, vm': VMem, h: Heap, pools: seq<PoolEntry>, base: int, v: int, n: nat, bytes: int,
                     s: MemoryState.State, t: MemoryState.State)
    requires HeapBlocks.Inv(h) && InMemory(vm, h, pools, base) && PagesCover(h, s)
    requires 1 <= n && HEADER < bytes && n == LargePages(bytes) && v !in vm
    requires forall w :: v <= w < v + n ==> Unused(h, w) && w in t.pages
    requires forall w :: w in s.pages ==> w in t.pages
    requires HeaderWritten(vm, vm', 4096 * v, 0, n * 4096)
    ensures HeapBlocks.Inv(AddLarge(h, v, n, bytes)) && InMemory(vm', AddLarge(h, v, n, bytes), pools, base)
    ensures KeptBut(vm, vm', 4096 * v) && PagesCover(AddLarge(h, v, n, bytes), t)
  {
    hide *;
    var vm1 := HeaderHalf(vm, vm', 4096 * v, 0, n * 4096);
    LargeInMemory(vm, vm1, vm', h, pools, base, v, n, bytes);
    FreshPage(vm, vm1, vm', v, n * 4096);
    KeptIsKeptBut(vm, vm', 4096 * v);
    AddLargeKeeps(h, v, n, bytes);
    AddLargeUses(h, v, n, bytes, s, t);
  }

  /** kmalloc's plan for a request beyond the largest chunk. */
  lemma PlanLarge(h: Heap, size: int, page: int)
    requires HeapBlocks.Inv(h) && size > 0 && BestPool(size + HEADER) == POOLS
    ensures PagesWanted(h, size) == (size + 15) / 4096 + 1
    ensures (forall v :: page <= v < page + PagesWanted(h, size) ==> Unused(h, v)) ==>
              && Enabled(h, Malloc(size, page))
              && Do(h, Malloc(size, page)) == AddLarge(h, page, PagesWanted(h, size), size + HEADER)
              && Chosen(h, size, page) == 4096 * page
  {
    hide HeapBlocks.Inv, BestPool;
  }

  lemma PageCount(bytes: int)
    requires HEADER < bytes
    ensures LargePages(bytes) == (bytes - 1) / 4096 + 1 >= 1
  {
  }

  /** kmalloc's plan for a pooled request: refill the pool if need be, pop a chunk. */
  lemma PlanPooled(h: Heap, size: int, page: int)
    requires HeapBlocks.Inv(h) && Settled(h) && size > 0 && BestPool(size + HEADER) < POOLS && Unused(h, page)
    ensures var i := BestPool(size + HEADER);
            && PagesWanted(h, size) == (if Avail(h, i) == 0 then 1 else 0)
            && Enabled(h, Malloc(size, page))
            && var r := Refilled(h, i, page);
            && Inv(r) && |r.tallies| == POOLS && Avail(r, i) > 0 && r.lists[i] != []
            && r == (if Avail(h, i) == 0 then HeapBlocks.AddPage(h, i, page) else h)
            && r.lists[i][0] in r.blocks && r.blocks[r.lists[i][0]].Free?
            && Do(h, Malloc(size, page)) == PopChunk(r, i, size + HEADER)
            && Chosen(h, size, page) == r.lists[i][0]
  {
    PooledEnabled(h, size, page);
    hide HeapBlocks.Inv, Settled, BestPool, HeapBlocks.AddPage, PopChunk, Do, Enabled, Chosen;
    PooledPlan(h, size, page);
  }

  lemma PooledEnabled(h: Heap, size: int, page: int)
    requires HeapBlocks.Inv(h) && size > 0 && BestPool(size + HEADER) < POOLS && Unused(h, page)
    ensures PagesWanted(h, size) == (if Avail(h, BestPool(size + HEADER)) == 0 then 1 else 0)
    ensures Enabled(h, Malloc(size, page))
  {
    hide HeapBlocks.Inv, BestPool;
  }

  /** The page at the heap top is nobody's. */
  lemma TopUnused(h: Heap, s: MemoryState.State)
    requires PagesCover(h, s) && MemoryState.Inv(s)
    ensures Unused(h, s.top)
  {
    assert MemoryState.PageOk(s, s.top);
  }

  lemma WroteIsKeptBut(vm: VMem, vm': VMem, a: int, x: int)
    requires Wrote(vm, vm', a, x) && a / 4096 in vm
    ensures KeptBut(vm, vm', a)
  {
    hide VWord;
  }

  /** What kfree reads back from the header of a live block. */
  lemma HeaderWords(vm: VMem, h: Heap, pools: seq<PoolEntry>, base: int, a: int)
    requires InMemory(vm, h, pools, base) && HeapBlocks.Inv(h) && a in h.blocks && !h.blocks[a].Free? && base > 0
    ensures a / 4096 in vm && 4096 <= a && a % 8 == 0 && (a + 8) % 8 == 0 && (a + 8) / 4096 == a / 4096
    ensures match h.blocks[a]
            case Live(i, _, bytes) => i < POOLS && VWord(vm, a) == base + 24 * i && VWord(vm, a + 8) == bytes
            case Large(n, _) => VWord(vm, a) == 0 && VWord(vm, a + 8) == 4096 * n
            case Free(_, _) => true
    ensures Enabled(h, Mfree(a))
    ensures Do(h, Mfree(a)) == if h.blocks[a].Large? then DropLarge(h, a) else PushChunk(h, a)
  {
    assert HeaderAt(vm, h, base, a) && BlockOk(h, a);
    HeaderAligned(h, a);
  }

  /** A large block's pages are in use, so freeing them passes every assert. */
  lemma LargeRun(h: Heap, s: MemoryState.State, a: int)
    requires HeapBlocks.Inv(h) && PagesCover(h, s) && MemoryState.Inv(s) && a in h.blocks && h.blocks[a].Large?
    ensures a % 4096 == 0 && h.blocks[a].pages > 0
    ensures 0x1000_0000 <= a / 4096 && a / 4096 + h.blocks[a].pages <= 0x8_0000_0000
    ensures MemoryState.HEAP_LIMIT == 0x8_0000_0000
    ensures forall v :: a / 4096 <= v < a / 4096 + h.blocks[a].pages ==> v in s.pages
  {
    assert BlockOk(h, a);
    var n := h.blocks[a].pages;
    hide HeapBlocks.Inv;
    forall v | a / 4096 <= v < a / 4096 + n
      ensures v in s.pages && MemoryState.HEAP_BASE <= v < MemoryState.HEAP_LIMIT
    {
      assert UsedBy(h, v, a) && MemoryState.PageOk(s, v);
    }
    assert a / 4096 in s.pages && a / 4096 + n - 1 in s.pages;
  }

  lemma DropUses(h: Heap, a: int, s: MemoryState.State, t: MemoryState.State)
    requires a in h.blocks && h.blocks[a].Large? && PagesCover(h, s)
    requires forall w :: w in t.pages <==> w in s.pages && !(a / 4096 <= w < a / 4096 + h.blocks[a].pages)
    ensures PagesCover(DropLarge(h, a), t)
  {
  }

  lemma PushUses(h: Heap, c: int)
    requires c in h.blocks && h.blocks[c].Live? && h.blocks[c].pool < |h.lists| && h.blocks[c].pool < |h.tallies|
    ensures PushChunk(h, c).uses == h.uses
  {
  }

  lemma SameUses(h: Heap, g: Heap, s: MemoryState.State)
    requires PagesCover(h, s) && g.uses == h.uses
    ensures PagesCover(g, s)
  {
  }

  lemma RunGone(s: MemoryState.State, t: MemoryState.State, vm: VMem, vm': VMem, first: int, n: nat)
    requires forall v :: v in t.pages <==> v in s.pages && !(first <= v < first + n)
    requires forall v :: v in vm' <==> v in vm && v in t.pages
    requires forall v :: v in vm' ==> vm'[v] == vm[v]
    ensures OnlyRunGone(s, t, vm, vm', first, n)
  {
  }

  lemma WordRead(vm: VMem, a: int)
    requires a / 4096 in vm
    ensures VWord(vm, a) == vm[a / 4096][a % 4096 / 8]
  {
  }

  lemma FreeKeepsSettled(h: Heap, a: int)
    requires HeapBlocks.Inv(h) && Settled(h) && Enabled(h, Mfree(a))
    ensures Settled(Do(h, Mfree(a)))
  {
    DoKeeps(h, Mfree(a));
  }

  /** The payload of a block lies in pages that kmalloc uses. */
  lemma PayloadPage(h: Heap, b: int, w: int)
    requires HeapBlocks.Inv(h) && b in h.blocks && !h.blocks[b].Free?
             && (h.blocks[b].Large? || h.blocks[b].pool < POOLS)
    requires b + HEADER < w + 8 && w < b + Extent(h.blocks[b])
    ensures w / 4096 in h.uses
  {
    BlockExtent(h, b);
    assert BlockOk(h, b);
    if h.blocks[b].Large? {
      assert b / 4096 <= w / 4096 < b / 4096 + h.blocks[b].pages;
      assert UsedBy(h, w / 4096, b);
    } else {
      assert w / 4096 == b / 4096;
    }
    hide HeapBlocks.Inv;
  }

  lemma StillCovered(h: Heap, s: MemoryState.State, t: MemoryState.State)
    requires PagesCover(h, s) && t.pages.Keys == s.pages.Keys
    ensures PagesCover(h, t)
  {
  }

  /** The first `n` pools have one page each; nothing was allocated yet. */
  ghost predicate FirstPooled(h: Heap, n: int) {
    |h.tallies| == POOLS && forall k: nat :: k < POOLS ==> h.tallies[k] == Tally(if k < n then 1 else 0, 0, 0)
  }

  lemma NothingTaken(h: Heap, i: nat)
    requires HeapBlocks.Inv(h) && i < POOLS && FirstPooled(h, i)
    ensures |h.tallies| == POOLS && Avail(h, i) == 0
  {
  }

  lemma OneMorePooled(h: Heap, g: Heap, i: nat)
    requires FirstPooled(h, i) && i < POOLS
    requires |h.tallies| == POOLS && g.tallies == h.tallies[i := h.tallies[i].(pages := h.tallies[i].pages + 1)]
    ensures FirstPooled(g, i + 1)
  {
  }

  lemma FirstPages(h: Heap)
    requires HeapBlocks.Inv(h) && FirstPooled(h, POOLS)
    ensures forall i: nat :: i < POOLS ==> h.tallies[i] == Tally(1, 0, 0)
    ensures Settled(h) && forall i: nat :: i < POOLS ==> |h.lists[i]| == ChunksPerPage(i)
  {
    forall i: nat | i < POOLS ensures |h.lists[i]| == ChunksPerPage(i) { assert TallyOk(h, i); }
    hide HeapBlocks.Inv;
  }

  lemma EmptyCovered(s: MemoryState.State)
    ensures PagesCover(Empty(), s) && FirstPooled(Empty(), 0)
  {
  }

  lemma EmptyInMemory(vm: VMem, pools: seq<PoolEntry>, base: int)
    requires |pools| == POOLS && forall i :: 0 <= i < POOLS ==> pools[i] == PoolEntry(0, 0)
    ensures InMemory(vm, Empty(), pools, base)
  {
  }

  lemma ChunkWord(i: nat, v: int, j: nat)
    requires i < POOLS && 0 <= v && j < ChunksPerPage(i)
    ensures ChunkAt(i, v, j) / 4096 == v && ChunkAt(i, v, j) % 8 == 0
    ensures 0 <= ChunkAt(i, v, j) && ChunkAt(i, v, j) + MaxSize(i) <= 4096 * (v + 1)
  {
    hide *;
    ChunkInPage(i, v, j);
    LineAligned(ChunkAt(i, v, j));
  }

  lemma NextChunk(i: nat, v: int, k: nat)
    requires i < POOLS
    ensures ChunkAt(i, v, k + 1) == ChunkAt(i, v, k) + MaxSize(i)
  {
    hide MaxSize;
  }

  lemma ThreadedNext(vm: VMem, i: nat, v: int, k: nat)
    requires i < POOLS && Threaded(vm, i, v, k) && v in vm && VWord(vm, ChunkAt(i, v, k)) == ChunkAt(i, v, k + 1)
    ensures Threaded(vm, i, v, k + 1)
  {
    hide VWord;
    forall j: nat | j < k + 1 ensures ThreadedAt(vm, i, v, j) {
      assert j < k ==> ThreadedAt(vm, i, v, j);
    }
  }

  lemma NothingThreaded(vm: VMem, i: nat, v: int)
    requires i < POOLS
    ensures Threaded(vm, i, v, 0) && Kept(vm, vm) && ChunkAt(i, v, 0) == 4096 * v
  {
  }

  lemma PoolInMemory(vm: VMem, h: Heap, pools: seq<PoolEntry>, base: int, i: nat)
    requires InMemory(vm, h, pools, base) && i < POOLS && HeapBlocks.Inv(h)
    ensures |pools| == POOLS && |h.tallies| == POOLS && |h.lists| == POOLS
            && pools[i] == PoolEntry(Avail(h, i), NextFree(h.lists[i], 0))
    ensures h.lists[i] == [] ==> pools[i].head == 0
    ensures h.lists[i] != [] ==> pools[i].head / 4096 in vm && pools[i].head % 32 == 0
  {
    assert PoolAt(h, pools, i) && LinkAt(vm, h, i, 0);
    FreeAligned(h, i, 0);
  }

  /** add_page in terms of counts, lists and pages used. */
  lemma AddPageFields(h: Heap, i: nat, v: int)
    requires HeapBlocks.Inv(h) && i < POOLS && Unused(h, v)
    ensures var g := HeapBlocks.AddPage(h, i, v);
            && |g.lists| == POOLS && |g.tallies| == POOLS
            && g.uses == h.uses[v := PoolPage(i)]
            && g.tallies == h.tallies[i := h.tallies[i].(pages := h.tallies[i].pages + 1)]
  {
  }

  lemma AddPageCovered(h: Heap, i: nat, v: int, s: MemoryState.State, t: MemoryState.State)
    requires HeapBlocks.Inv(h) && i < POOLS && Unused(h, v) && PagesCover(h, s)
    requires v in t.pages && forall w :: w in s.pages ==> w in t.pages
    ensures PagesCover(HeapBlocks.AddPage(h, i, v), t)
  {
    AddPageFields(h, i, v);
    hide HeapBlocks.AddPage, HeapBlocks.Inv;
  }

  /** Pages first .. first + n - 1 left the heap; the others kept their contents. */
  ghost predicate OnlyRunGone(s: MemoryState.State, t: MemoryState.State, vm: VMem, vm': VMem, first: int, n: nat) {
    && (forall v :: v in t.pages <==> v in s.pages && !(first <= v < first + n))
    && (forall v :: v in vm' <==> v in vm && v in t.pages)
    && (forall v :: v in vm' ==> vm'[v] == vm[v])
  }

  /** kmalloc(size) from heap `h0` and memory state `s0` returned `p`: the call on
      blocks, the pages taken for it and the block chosen. */
  ghost predicate Allocated(h0: Heap, s0: MemoryState.State, h: Heap, s: MemoryState.State, size: int, p: int) {
    && HeapBlocks.Inv(h0) && MemoryState.Inv(s0) && |h0.tallies| == POOLS && size > 0
    && (PagesWanted(h0, size) > 0 ==> Room(s0, PagesWanted(h0, size)))
    && Enabled(h0, Malloc(size, s0.top)) && h == Do(h0, Malloc(size, s0.top))
    && s == TakePages(s0, PagesWanted(h0, size))
    && p == Chosen(h0, size, s0.top) + HEADER
  }

  /** `p` is 16-byte aligned and the payload of a live block with room for `size` bytes. */
  ghost predicate FitsRequest(h: Heap, size: int, p: int) {
    var a := p - HEADER;
    && p % 16 == 0
    && a in h.blocks && !h.blocks[a].Free? && (h.blocks[a].Large? || h.blocks[a].pool < POOLS)
    && h.blocks[a].bytes == size + HEADER <= Extent(h.blocks[a])
  }

  lemma AllocatedIs(h0: Heap, s0: MemoryState.State, h: Heap, s: MemoryState.State, size: int, p: int)
    requires HeapBlocks.Inv(h0) && MemoryState.Inv(s0) && |h0.tallies| == POOLS && size > 0
    requires PagesWanted(h0, size) > 0 ==> Room(s0, PagesWanted(h0, size))
    requires Enabled(h0, Malloc(size, s0.top)) && h == Do(h0, Malloc(size, s0.top))
    requires s == TakePages(s0, PagesWanted(h0, size))
    requires p == Chosen(h0, size, s0.top) + HEADER
    ensures Allocated(h0, s0, h, s, size, p)
  {
    hide HeapBlocks.Inv, MemoryState.Inv, PagesWanted, Room, Enabled, Do, TakePages, Chosen;
  }

  lemma AllocatedFits(h0: Heap, s0: MemoryState.State, h: Heap, s: MemoryState.State, size: int, p: int)
    requires Allocated(h0, s0, h, s, size, p) && Settled(h0)
    ensures HeapBlocks.Inv(h) && Settled(h) && FitsRequest(h, size, p)
  {
    hide HeapBlocks.Inv, MemoryState.Inv, PagesWanted, Room, Enabled, Do, TakePages, Chosen, Settled, Extent;
    DoKeeps(h0, Malloc(size, s0.top));
    BlockExtent(h, p - 16);
    LineAligned(p - 16);
  }

  class Kmalloc {
    const mmu: Mmu
    const poolArr: u64           // address of pool_arr
    var pools: seq<PoolEntry>    // its avail and head fields
    ghost var h: Heap

    /** Valid, except perhaps for a pool that has just been refilled. */
    ghost predicate Ready()
      reads this, mmu, mmu.ram, mmu.pf
    {
      && mmu.Valid()
      && HeapBlocks.Inv(h)
      && 0 < poolArr && poolArr + 24 * POOLS < 0x1_0000_0000_0000_0000
      && InMemory(mmu.Heap(), h, pools, poolArr)
      && PagesCover(h, mmu.st)
    }

    ghost predicate Valid()
      reads this, mmu, mmu.ram, mmu.pf
    {
      Ready() && Settled(h)
    }

    lemma Parts()
      requires Ready()
      ensures mmu.Valid() && HeapBlocks.Inv(h) && |h.lists| == POOLS && |h.tallies| == POOLS
      ensures 0 < poolArr && poolArr + 24 * POOLS < 0x1_0000_0000_0000_0000
      ensures InMemory(mmu.Heap(), h, pools, poolArr) && |pools| == POOLS
      ensures PagesCover(h, mmu.st)
      ensures forall v :: v in h.uses ==> v in mmu.st.pages
    {
    }

    lemma ValidParts()
      requires Valid()
      ensures Ready() && Settled(h)
    {
    }

    lemma ValidWhole()
      requires Ready() && Settled(h)
      ensures Valid()
    {
    }

    lemma Whole()
      requires mmu.Valid() && HeapBlocks.Inv(h)
      requires 0 < poolArr && poolArr + 24 * POOLS < 0x1_0000_0000_0000_0000
      requires InMemory(mmu.Heap(), h, pools, poolArr)
      requires PagesCover(h, mmu.st)
      ensures Ready()
    {
    }

    /** kmalloc_init: one page for every pool. */
    constructor (mmu: Mmu, poolArr: u64)
      requires mmu.Valid()
      requires 0 < poolArr && poolArr + 24 * POOLS < 0x1_0000_0000_0000_0000
      requires RoomForPools(mmu.st, POOLS)
      modifies mmu, mmu.ram, mmu.pf
      ensures Valid() && this.mmu == mmu && this.poolArr == poolArr
      ensures forall i: nat :: i < POOLS ==> h.tallies[i] == Tally(1, 0, 0) && |h.lists[i]| == ChunksPerPage(i)
      ensures mmu.st.top == old(mmu.st.top) + POOLS && mmu.st.own.Keys == old(mmu.st.own.Keys)
    {
      assert POOLS == 7;
      this.mmu := mmu;
      this.poolArr := poolArr;
      pools := seq(POOLS, _ => PoolEntry(0, 0));
      h := Empty();
      new;
      hide *;
      EmptyInv();
      EmptyInMemory(mmu.Heap(), pools, poolArr);
      EmptyCovered(mmu.st);
      Whole();
      AddFirstPages();
      Parts();
      FirstPages(h);
      ValidWhole();
    }

    /** kmalloc_init's loop */
    method AddFirstPages()
      requires Ready() && RoomForPools(mmu.st, 7) && FirstPooled(h, 0)
      modifies this, mmu, mmu.ram, mmu.pf
      ensures Ready() && FirstPooled(h, 7)
      ensures mmu.st.top == old(mmu.st.top) + 7 && mmu.st.own.Keys == old(mmu.st.own.Keys)
    {
      assert POOLS == 7;
      hide *;
      var i := 0;
      while i < 7
        invariant 0 <= i <= 7 && Ready()
        invariant RoomForPools(mmu.st, 7 - i) && FirstPooled(h, i)
        invariant mmu.st.top == old(mmu.st.top) + i && mmu.st.own.Keys == old(mmu.st.own.Keys)
      {
        AddFirstPage(i);
        i := i + 1;
      }
    }

    method AddFirstPage(i: nat)
      requires Ready() && i < 7 && RoomForPools(mmu.st, 7 - i) && FirstPooled(h, i)
      modifies this, mmu, mmu.ram, mmu.pf
      ensures Ready() && RoomForPools(mmu.st, 7 - (i + 1)) && FirstPooled(h, i + 1)
      ensures mmu.st.top == old(mmu.st.top) + 1 && mmu.st.own.Keys == old(mmu.st.own.Keys)
    {
      assert POOLS == 7;
      hide *;
      ghost var g, s := h, mmu.st;
      Parts();
      mmu.HeapPages();
      RoomForOne(s, 7 - i);
      NothingTaken(g, i);
      TakeKeepsFrames(s, 1);
      AddPage(i);
      OneMorePooled(g, h, i);
      RoomForRest(s, mmu.st, 7 - i);
    }

    /** get_best_pool */
    method GetBestPool(size: int) returns (i: nat)
      ensures i == BestPool(size)
    {
      i := 0;
      while i < POOLS
        invariant 0 <= i <= POOLS
        invariant BestPool(size) >= i
      {
        if size <= MaxSize(i) {
          return i;
        }
        i := i + 1;
      }
    }

    /** add_page */
    method AddPage(i: nat)
      requires Ready() && i < POOLS && Avail(h, i) == 0 && Room(mmu.st, 1)
      modifies this, mmu, mmu.ram, mmu.pf
      ensures Ready()
      ensures MemoryState.Inv(old(mmu.st)) && mmu.st == TakePages(old(mmu.st), 1)
      ensures mmu.st.top == old(mmu.st).top + 1
      ensures FramePool.Available(mmu.st.pool)
              == FramePool.Available(old(mmu.st).pool) - MemoryState.Cost(old(mmu.st), 1) - 1
      ensures Kept(old(mmu.Heap()), mmu.Heap())
      ensures |old(h).tallies| == POOLS
      ensures h.tallies == old(h).tallies[i := old(h).tallies[i].(pages := old(h).tallies[i].pages + 1)]
      ensures Unused(old(h), old(mmu.st).top) && h == HeapBlocks.AddPage(old(h), i, old(mmu.st).top)
      ensures MemoryLayout.HeldKept(old(mmu.ram.frames), mmu.ram.frames, old(mmu.st), mmu.st, 0)
    {
      hide *;
      ghost var s, v, vm, g, pools0 := mmu.st, mmu.st.top, mmu.Heap(), h, pools;
      Parts();
      RoomParts(s, 1);
      PoolInMemory(vm, g, pools, poolArr, i);
      CarvePage(i);
      CarvedMeans(mmu.Heap(), i, v, pools0[i].head);
      PageTakenMeans(s, mmu.st);
      AddPageKeeps(g, i, v);
      AddPageFields(g, i, v);
      AddPageInMemory(vm, mmu.Heap(), g, pools0, poolArr, i, v);
      AddPageCovered(g, i, v, s, mmu.st);
      h := HeapBlocks.AddPage(g, i, v);
      Whole();
    }

    /** What add_page writes: a fresh page cut into linked chunks, and the pool's entry. */
    method CarvePage(i: nat)
      requires Ready() && i < POOLS && Room(mmu.st, 1)
      requires |pools| == POOLS && pools[i].avail == 0
      modifies `pools, mmu, mmu.ram, mmu.pf
      ensures mmu.Valid() && PageTaken(old(mmu.st), mmu.st)
      ensures pools == old(pools)[i := PoolEntry(ChunksPerPage(i), 4096 * old(mmu.st).top)]
      ensures Unused(h, old(mmu.st).top)
      ensures i < |old(pools)| && Carved(mmu.Heap(), i, old(mmu.st).top, old(pools)[i].head)
      ensures Kept(old(mmu.Heap()), mmu.Heap())
      ensures MemoryLayout.HeldKept(old(mmu.ram.frames), mmu.ram.frames, old(mmu.st), mmu.st, 0)
    {
      hide *;
      ghost var m0, s, v, vm, pools0 := mmu.ram.frames, mmu.st, mmu.st.top, mmu.Heap(), pools;
      Parts();
      ChunksFillPage(i);
      PoolInMemory(vm, h, pools, poolArr, i);
      mmu.HeapPages();
      var newPage := TakeRun(1);
      ghost var m1, t := mmu.ram.frames, mmu.st;
      PageMeans(s, t, h, vm);
      mmu.HeapPages();
      var numChunks := 4096 / MaxSize(i);
      var oldHead := pools[i].head;
      pools := pools[i := pools[i].(head := newPage)];
      ThreadPage(i, v, newPage, numChunks, oldHead);
      pools := pools[i := pools[i].(avail := pools[i].avail + numChunks)];
      assert pools == pools0[i := PoolEntry(ChunksPerPage(i), 4096 * v)];
      MemoryLayout.HeldThen(m0, m1, mmu.ram.frames, s, t, mmu.st);
      CarvedIs(mmu.Heap(), i, v, oldHead);
      PageTouched(s, t, mmu.st, h, vm);
    }

    /** `n` more pages from MMU_alloc_pages: on demand, without contents, nobody's. */
    method TakeRun(n: nat) returns (newPage: u64)
      requires Ready() && Room(mmu.st, n) && n > 0
      modifies mmu, mmu.ram, mmu.pf
      ensures mmu.Valid() && newPage == 4096 * old(mmu.st).top
      ensures mmu.Heap() == old(mmu.Heap()) && InMemory(mmu.Heap(), h, pools, poolArr)
      ensures RunTaken(old(mmu.st), mmu.st, h, mmu.Heap(), n)
      ensures MemoryLayout.HeldKept(old(mmu.ram.frames), mmu.ram.frames, old(mmu.st), mmu.st, 0)
    {
      hide *;
      ghost var s := mmu.st;
      Parts();
      mmu.HeapPages();
      RoomParts(s, n);
      NewPages(s, mmu.Heap(), h, n);
      newPage := mmu.AllocPages(n);
      RunTakenIs(s, mmu.st, h, mmu.Heap(), n);
    }

    /** add_page's loop: each chunk links to the next, the last to the old list. */
    method ThreadPage(i: nat, ghost v: int, newPage: u64, numChunks: int, oldHead: u64)
      requires mmu.Valid() && i < POOLS && numChunks == ChunksPerPage(i)
      requires newPage == 4096 * v && 0 < v < MemoryState.HEAP_LIMIT && v !in mmu.Heap()
      requires v in mmu.st.pages && FramePool.Available(mmu.st.pool) > 0
      modifies mmu`st, mmu.ram, mmu.pf
      ensures mmu.Valid() && mmu.st.pages.Keys == old(mmu.st).pages.Keys && mmu.st.top == old(mmu.st).top
      ensures mmu.st == MemoryState.Touched(old(mmu.st), v)
      ensures FramePool.Available(mmu.st.pool) ==
                FramePool.Available(old(mmu.st).pool) - (if old(mmu.st).pages[v].Mapped? then 0 else 1)
      ensures Kept(old(mmu.Heap()), mmu.Heap()) && v in mmu.Heap()
      ensures Threaded(mmu.Heap(), i, v, numChunks - 1)
      ensures VWord(mmu.Heap(), ChunkAt(i, v, numChunks - 1)) == oldHead
      ensures MemoryLayout.HeldKept(old(mmu.ram.frames), mmu.ram.frames, old(mmu.st), mmu.st, 0)
    {
      ghost var vm, s := mmu.Heap(), mmu.st;
      hide *;
      ghost var m0 := mmu.ram.frames;
      MemoryLayout.HeldSame(m0, s);
      ChunksFillPage(i);
      mmu.HeapPages();
      MemoryState.TouchedPages(s, v);
      MemoryState.TouchedPages(MemoryState.Touched(s, v), v);
      NothingThreaded(vm, i, v);
      var chunk := newPage;
      var k := 0;
      while k < numChunks - 1
        invariant 0 <= k <= numChunks - 1 && chunk == ChunkAt(i, v, k)
        invariant mmu.Valid() && mmu.st.pages.Keys == s.pages.Keys
        invariant k == 0 ==> mmu.st == s
        invariant k > 0 ==> mmu.st == MemoryState.Touched(s, v) && v in mmu.Heap()
        invariant Kept(vm, mmu.Heap()) && Threaded(mmu.Heap(), i, v, k)
        invariant MemoryLayout.HeldKept(m0, mmu.ram.frames, s, mmu.st, 0)
      {
        ghost var m1, s1 := mmu.ram.frames, mmu.st;
        chunk := LinkChunk(i, v, k, chunk, vm);
        MemoryLayout.HeldThen(m0, m1, mmu.ram.frames, s, s1, mmu.st);
        k := k + 1;
      }
      ghost var m2, s2 := mmu.ram.frames, mmu.st;
      WriteLink(i, v, k, chunk, oldHead, vm);
      MemoryLayout.HeldThen(m0, m2, mmu.ram.frames, s, s2, mmu.st);
    }

    /** A link word written into chunk `k`. */
    method WriteLink(i: nat, ghost v: int, ghost k: nat, chunk: u64, link: u64, ghost vm: VMem)
      requires mmu.Valid() && i < POOLS && k < ChunksPerPage(i) && chunk == ChunkAt(i, v, k) && 0 < v
      requires v in mmu.st.pages && v !in vm
      requires mmu.st.pages[v] == MemoryState.Demand ==> FramePool.Available(mmu.st.pool) > 0
      requires Kept(vm, mmu.Heap()) && Threaded(mmu.Heap(), i, v, k)
      modifies mmu`st, mmu.ram, mmu.pf
      ensures mmu.Valid() && mmu.st == MemoryState.Touched(old(mmu.st), v) && v in mmu.Heap()
      ensures Kept(vm, mmu.Heap()) && Threaded(mmu.Heap(), i, v, k)
      ensures VWord(mmu.Heap(), chunk) == link
      ensures MemoryLayout.HeldKept(old(mmu.ram.frames), mmu.ram.frames, old(mmu.st), mmu.st, 0)
    {
      hide *;
      ghost var a := mmu.Heap();
      ChunkWord(i, v, k);
      mmu.HeapPages();
      MemoryState.TouchedPages(mmu.st, v);
      ghost var before := mmu.WriteWord(chunk, link);
      StoreWrote(a, mmu.Heap(), chunk, link, before);
      ThreadStep(vm, a, mmu.Heap(), i, v, k, link);
    }

    /** One round of add_page's loop: links a chunk to the one after it and moves on there. */
    method LinkChunk(i: nat, ghost v: int, ghost k: nat, chunk: u64, ghost vm: VMem) returns (next: u64)
      requires mmu.Valid() && i < POOLS && k + 1 < ChunksPerPage(i) && chunk == ChunkAt(i, v, k)
      requires 0 < v < MemoryState.HEAP_LIMIT && v in mmu.st.pages && v !in vm
      requires mmu.st.pages[v] == MemoryState.Demand ==> FramePool.Available(mmu.st.pool) > 0
      requires Kept(vm, mmu.Heap()) && Threaded(mmu.Heap(), i, v, k)
      modifies mmu`st, mmu.ram, mmu.pf
      ensures mmu.Valid() && mmu.st == MemoryState.Touched(old(mmu.st), v) && v in mmu.Heap()
      ensures Kept(vm, mmu.Heap()) && Threaded(mmu.Heap(), i, v, k + 1)
      ensures next == ChunkAt(i, v, k + 1)
      ensures MemoryLayout.HeldKept(old(mmu.ram.frames), mmu.ram.frames, old(mmu.st), mmu.st, 0)
    {
      ghost var m0, s0 := mmu.ram.frames, mmu.st;
      assert MemoryState.HEAP_LIMIT == 0x8_0000_0000;
      hide *;
      ghost var s := mmu.st;
      ChunkWord(i, v, k);
      mmu.HeapPages();
      MemoryState.TouchedPages(s, v);
      NextChunk(i, v, k);
      WriteLink(i, v, k, chunk, chunk + MaxSize(i), vm);
      ThreadedNext(mmu.Heap(), i, v, k);
      mmu.HeapPages();
      MemoryState.TouchedPages(mmu.st, v);
      ghost var m1, s1 := mmu.ram.frames, mmu.st;
      next := mmu.ReadWord(chunk);
      MemoryLayout.HeldThen(m0, m1, mmu.ram.frames, s0, s1, mmu.st);
    }

    /** Frames and address space that kmalloc(size) may ask for. */
    ghost predicate CanServe(size: int)
      reads this, mmu
      requires |h.tallies| == POOLS && 0 < size
    {
      PagesWanted(h, size) > 0 ==> Room(mmu.st, PagesWanted(h, size))
    }

    /** The pooled path: pop the head and write the header over its link. */
    method TakeChunk(i: nat, bytesNeeded: u64) returns (newMem: u64)
      requires Ready() && i < POOLS && Avail(h, i) > 0 && HEADER < bytesNeeded && BestPool(bytesNeeded) == i
      modifies `pools, `h, mmu`st, mmu.ram, mmu.pf
      ensures Ready() && mmu.st == old(mmu.st)
      ensures ChunkTaken(old(h), h, i, bytesNeeded, newMem) && newMem / 4096 < 0x8_0000_0000
      ensures KeptBut(old(mmu.Heap()), mmu.Heap(), newMem)
      ensures MemoryLayout.HeldKept(old(mmu.ram.frames), mmu.ram.frames, old(mmu.st), mmu.st, 0)
    {
      assert HEADER == 16;
      hide *;
      ghost var g, vm, pools0 := h, mmu.Heap(), pools;
      Parts();
      HeadFacts(vm, g, pools, poolArr, i, bytesNeeded);
      mmu.HeapPages();
      newMem := UseHead(i, bytesNeeded);
      h := PopChunk(g, i, bytesNeeded);
      ChunkWritten(vm, mmu.Heap(), g, pools0, poolArr, i, bytesNeeded, mmu.st);
      ChunkIs(g, h, i, bytesNeeded, newMem);
      Whole();
    }

    /** The pool moves on to its next chunk, and the header goes over the link of the
        one taken. */
    method UseHead(i: nat, bytesNeeded: u64) returns (newMem: u64)
      requires mmu.Valid() && i < |pools| && i < 7 && poolArr + 168 < 0x1_0000_0000_0000_0000
      requires 0 <= pools[i].head && pools[i].head % 8 == 0
      requires pools[i].head / 4096 in mmu.Heap() && (pools[i].head + 8) / 4096 == pools[i].head / 4096
      modifies `pools, mmu`st, mmu.ram, mmu.pf
      ensures mmu.Valid() && mmu.st == old(mmu.st) && newMem == old(pools)[i].head && newMem / 4096 < 0x8_0000_0000
      ensures pools == old(pools)[i := PoolEntry(old(pools)[i].avail - 1, VWord(old(mmu.Heap()), newMem))]
      ensures HeaderWritten(old(mmu.Heap()), mmu.Heap(), newMem, poolArr + 24 * i, bytesNeeded)
      ensures MemoryLayout.HeldKept(old(mmu.ram.frames), mmu.ram.frames, old(mmu.st), mmu.st, 0)
    {
      hide *;
      ghost var m0, s := mmu.ram.frames, mmu.st;
      mmu.HeapPages();
      newMem := pools[i].head;
      var next := ReadHead(i);
      pools := pools[i := PoolEntry(pools[i].avail - 1, next)];
      ghost var m1 := mmu.ram.frames;
      MemoryState.TouchedPages(s, newMem / 4096);
      WriteHeader(newMem, poolArr + 24 * i, bytesNeeded);
      MemoryLayout.HeldThen(m0, m1, mmu.ram.frames, s, s, mmu.st);
    }

    /** Follows the link in a pool's first free chunk, which is mapped. */
    method ReadHead(i: nat) returns (next: u64)
      requires mmu.Valid() && i < |pools| && pools[i].head % 8 == 0
      requires 0 <= pools[i].head && pools[i].head / 4096 in mmu.Heap()
      modifies mmu`st, mmu.ram, mmu.pf
      ensures mmu.Valid() && mmu.st == old(mmu.st) && mmu.Heap() == old(mmu.Heap())
      ensures next == VWord(mmu.Heap(), pools[i].head)
      ensures MemoryLayout.HeldKept(old(mmu.ram.frames), mmu.ram.frames, old(mmu.st), mmu.st, 0)
    {
      hide *;
      mmu.HeapPages();
      MemoryState.TouchedPages(mmu.st, pools[i].head / 4096);
      next := mmu.ReadWord(pools[i].head);
      WordRead(mmu.Heap(), pools[i].head);
    }

    /** Writes the two header words, faulting their page in if it is on demand. */
    method WriteHeader(newMem: u64, pool: u64, size: u64)
      requires mmu.Valid() && newMem % 8 == 0 && (newMem + 8) / 4096 == newMem / 4096 && newMem / 4096 in mmu.st.pages
      requires newMem + 8 < 0x1_0000_0000_0000_0000
      requires mmu.st.pages[newMem / 4096] == MemoryState.Demand ==> FramePool.Available(mmu.st.pool) > 0
      modifies mmu`st, mmu.ram, mmu.pf
      ensures mmu.Valid() && mmu.st == MemoryState.Touched(old(mmu.st), newMem / 4096)
      ensures HeaderWritten(old(mmu.Heap()), mmu.Heap(), newMem, pool, size)
      ensures MemoryLayout.HeldKept(old(mmu.ram.frames), mmu.ram.frames, old(mmu.st), mmu.st, 0)
    {
      ghost var m0, s0 := mmu.ram.frames, mmu.st;
      hide *;
      ghost var vm0 := mmu.Heap();
      mmu.HeapPages();
      MemoryState.TouchedPages(mmu.st, newMem / 4096);
      ghost var before := mmu.WriteWord(newMem, pool);
      ghost var vm1 := mmu.Heap();
      StoreWrote(vm0, vm1, newMem, pool, before);
      mmu.HeapPages();
      MemoryState.TouchedPages(mmu.st, newMem / 4096);
      ghost var m1, s1 := mmu.ram.frames, mmu.st;
      before := mmu.WriteWord(newMem + 8, size);
      MemoryLayout.HeldThen(m0, m1, mmu.ram.frames, s0, s1, mmu.st);
      StoreWrote(vm1, mmu.Heap(), newMem + 8, size, before);
      HeaderIs(vm0, vm1, mmu.Heap(), newMem, pool, size);
    }

    /** The large path: whole pages of its own, header in front. */
    method TakeLarge(n: nat, ghost bytes: int) returns (newPage: u64)
      requires Ready() && 1 <= n && Room(mmu.st, n) && HEADER < bytes && n == LargePages(bytes)
      modifies this, mmu, mmu.ram, mmu.pf
      ensures Ready()
      ensures MemoryState.Inv(old(mmu.st)) && mmu.st == TakePages(old(mmu.st), n)
      ensures newPage == 4096 * old(mmu.st).top
      ensures forall v :: old(mmu.st).top <= v < old(mmu.st).top + n ==> Unused(old(h), v)
      ensures h == AddLarge(old(h), old(mmu.st).top, n, bytes)
      ensures KeptBut(old(mmu.Heap()), mmu.Heap(), newPage)
      ensures MemoryLayout.HeldKept(old(mmu.ram.frames), mmu.ram.frames, old(mmu.st), mmu.st, 0)
    {
      ghost var m0, s0 := mmu.ram.frames, mmu.st;
      hide *;
      ghost var g, vm, s, v := h, mmu.Heap(), mmu.st, mmu.st.top;
      Parts();
      newPage := TakeRun(n);
      RunMeans(s, mmu.st, g, vm, n);
      LargeAddress(v, n);
      mmu.HeapPages();
      MemoryState.TouchedPages(mmu.st, v);
      TakeMany(s, n);
      ghost var m1, s1 := mmu.ram.frames, mmu.st;
      WriteHeader(newPage, 0, n * 4096);
      MemoryLayout.HeldThen(m0, m1, mmu.ram.frames, s0, s1, mmu.st);
      h := AddLarge(g, v, n, bytes);
      LargeWritten(vm, mmu.Heap(), g, pools, poolArr, v, n, bytes, s, mmu.st);
      Whole();
    }

    /** kmalloc.  The sum with the header must not wrap. */
    method Alloc(size: u64) returns (p: u64)
      requires Valid() && 0 < size <= 0xFFFF_FFFF_FFFF_FFEF && CanServe(size)
      modifies this, mmu, mmu.ram, mmu.pf
      ensures Valid()
      ensures Allocated(old(h), old(mmu.st), h, mmu.st, size, p)
      ensures FitsRequest(h, size, p)
      ensures KeptBut(old(mmu.Heap()), mmu.Heap(), p - HEADER)
      ensures MemoryLayout.HeldKept(old(mmu.ram.frames), mmu.ram.frames, old(mmu.st), mmu.st, 0)
    {
      assert HEADER == 16 && POOLS == 7;
      hide *;
      ghost var g, s := h, mmu.st;
      ValidParts();
      Parts();
      ServeMeans(size);
      var bytesNeeded := size + 16;
      var i := GetBestPool(bytesNeeded);
      if i == POOLS {
        p := AllocLarge(size, bytesNeeded);
      } else {
        p := AllocChunk(i, size, bytesNeeded);
      }
      AllocatedFits(g, s, h, mmu.st, size, p);
      ValidWhole();
    }

    lemma ServeMeans(size: int)
      requires Ready() && size > 0 && |h.tallies| == POOLS && CanServe(size)
      ensures MemoryState.Inv(mmu.st)
      ensures PagesWanted(h, size) > 0 ==> Room(mmu.st, PagesWanted(h, size))
    {
      hide Room, PagesWanted, MemoryState.Inv;
    }

    /** No pool fits: whole pages, header in front. */
    method AllocLarge(size: u64, bytesNeeded: u64) returns (p: u64)
      requires Ready() && 0 < size && bytesNeeded == size + HEADER && BestPool(bytesNeeded) == POOLS
      requires |h.tallies| == POOLS && (PagesWanted(h, size) > 0 ==> Room(mmu.st, PagesWanted(h, size)))
      modifies this, mmu, mmu.ram, mmu.pf
      ensures Ready() && Allocated(old(h), old(mmu.st), h, mmu.st, size, p)
      ensures KeptBut(old(mmu.Heap()), mmu.Heap(), p - HEADER)
      ensures MemoryLayout.HeldKept(old(mmu.ram.frames), mmu.ram.frames, old(mmu.st), mmu.st, 0)
    {
      assert HEADER == 16;
      hide *;
      Parts();
      ghost var g, top := h, mmu.st.top;
      var newPageCnt := (bytesNeeded - 1) / 4096 + 1;
      PlanLarge(g, size, top);
      PageCount(bytesNeeded);
      ghost var s := mmu.st;
      var newPage := TakeLarge(newPageCnt, bytesNeeded);
      p := newPage + 16;
      AllocatedIs(g, s, h, mmu.st, size, p);
    }

    /** Pool `i` fits: refill it if nothing is available, then take its head. */
    method AllocChunk(i: nat, size: u64, bytesNeeded: u64) returns (p: u64)
      requires Valid() && 0 < size && bytesNeeded == size + HEADER && BestPool(bytesNeeded) == i
      requires i != POOLS
      requires |h.tallies| == POOLS && (PagesWanted(h, size) > 0 ==> Room(mmu.st, PagesWanted(h, size)))
      modifies this, mmu, mmu.ram, mmu.pf
      ensures Ready() && Allocated(old(h), old(mmu.st), h, mmu.st, size, p)
      ensures KeptBut(old(mmu.Heap()), mmu.Heap(), p - HEADER)
      ensures MemoryLayout.HeldKept(old(mmu.ram.frames), mmu.ram.frames, old(mmu.st), mmu.st, 0)
    {
      ghost var m0, s0 := mmu.ram.frames, mmu.st;
      assert HEADER == 16;
      hide *;
      ValidParts();
      Parts();
      ghost var g, vm, s, top := h, mmu.Heap(), mmu.st, mmu.st.top;
      BestPoolIsTight(bytesNeeded);
      mmu.HeapPages();
      TopUnused(g, mmu.st);
      PlanPooled(g, size, top);
      KeptRefl(vm);
      PoolInMemory(vm, g, pools, poolArr, i);
      TakeNone(mmu.st);
      MemoryLayout.HeldSame(m0, s0);
      if pools[i].avail == 0 {
        AddPage(i);
      }
      ghost var vm1, h1 := mmu.Heap(), h;
      ghost var m1, s1 := mmu.ram.frames, mmu.st;
      var newMem := TakeChunk(i, bytesNeeded);
      MemoryLayout.HeldThen(m0, m1, mmu.ram.frames, s0, s1, mmu.st);
      ChunkMeans(h1, h, i, bytesNeeded, newMem);
      KeptThen(vm, vm1, mmu.Heap(), newMem);
      p := newMem + 16;
      AllocatedIs(g, s, h, mmu.st, size, p);
    }

    /** kfree of a live block. */
    method Release(p: u64)
      requires Valid() && p - HEADER in h.blocks && !h.blocks[p - HEADER].Free?
      modifies this, mmu, mmu.ram, mmu.pf
      ensures Valid()
      ensures Enabled(old(h), Mfree(p - HEADER)) && h == Do(old(h), Mfree(p - HEADER))
      ensures old(h).blocks[p - HEADER].Live? ==>
                mmu.st == old(mmu.st) && KeptBut(old(mmu.Heap()), mmu.Heap(), p - HEADER)
      ensures old(h).blocks[p - HEADER].Large? ==>
                OnlyRunGone(old(mmu.st), mmu.st, old(mmu.Heap()), mmu.Heap(), (p - HEADER) / 4096,
                    old(h).blocks[p - HEADER].pages)
      ensures MemoryState.Inv(old(mmu.st))
      ensures old(h).blocks[p - HEADER].Large? ==>
                && (forall v :: (p - HEADER) / 4096 <= v < (p - HEADER) / 4096 + old(h).blocks[p - HEADER].pages ==>
                    v in old(mmu.st).pages)
                && mmu.st == MemoryState.ReleasePages(old(mmu.st), (p - HEADER) / 4096, old(h).blocks[p - HEADER].pages)
      ensures MemoryLayout.HeldKept(old(mmu.ram.frames), mmu.ram.frames, old(mmu.st), mmu.st, 0)
    {
      ghost var m0, s0 := mmu.ram.frames, mmu.st;
      assert HEADER == 16;
      hide *;
      ghost var g, a := h, p - HEADER;
      ValidParts();
      Parts();
      HeaderWords(mmu.Heap(), g, pools, poolArr, a);
      FreeKeepsSettled(g, a);
      var size, poolPtr := ReadHeader(p - 16);
      ghost var m1, s1 := mmu.ram.frames, mmu.st;
      if poolPtr == 0 {
        DropPages(p - 16, size / 4096);
      } else {
        PushHead((poolPtr - poolArr) / 24, p - 16);
      }
      MemoryLayout.HeldThen(m0, m1, mmu.ram.frames, s0, s1, mmu.st);
      ValidWhole();
    }

    /** Reads the two header words of a live block. */
    method ReadHeader(oldMem: u64) returns (size: u64, poolPtr: u64)
      requires Ready() && oldMem in h.blocks && !h.blocks[oldMem].Free?
      modifies mmu`st, mmu.ram, mmu.pf
      ensures Ready() && mmu.st == old(mmu.st) && mmu.Heap() == old(mmu.Heap())
      ensures match h.blocks[oldMem]
              case Live(i, _, bytes) => i < POOLS && poolPtr == poolArr + 24 * i && size == bytes
              case Large(n, _) => poolPtr == 0 && size == 4096 * n
              case Free(_, _) => true
      ensures MemoryLayout.HeldKept(old(mmu.ram.frames), mmu.ram.frames, old(mmu.st), mmu.st, 0)
    {
      ghost var m0, s0 := mmu.ram.frames, mmu.st;
      hide *;
      ghost var vm := mmu.Heap();
      Parts();
      mmu.HeapPages();
      HeaderWords(vm, h, pools, poolArr, oldMem);
      MemoryState.TouchedPages(mmu.st, oldMem / 4096);
      WordRead(vm, oldMem);
      WordRead(vm, oldMem + 8);
      size := mmu.ReadWord(oldMem + 8);
      ghost var m1, s1 := mmu.ram.frames, mmu.st;
      poolPtr := mmu.ReadWord(oldMem);
      MemoryLayout.HeldThen(m0, m1, mmu.ram.frames, s0, s1, mmu.st);
      Whole();
    }

    /** An in-bounds store by the owner of a live block: any aligned word that holds a
        byte of the payload.  Headers, links and all other words stay. */
    method WritePayload(b: u64, w: u64, x: u64)
      requires Valid() && b in h.blocks && !h.blocks[b].Free? && (h.blocks[b].Large? || h.blocks[b].pool < POOLS)
      requires w % 8 == 0 && b + HEADER < w + 8 && w < b + Extent(h.blocks[b])
      requires w / 4096 in mmu.st.pages && mmu.st.pages[w / 4096] == MemoryState.Demand ==>
                 FramePool.Available(mmu.st.pool) > 0
      modifies mmu`st, mmu.ram, mmu.pf
      ensures Valid() && w / 4096 in old(mmu.st).pages
      ensures Wrote(old(mmu.Heap()), mmu.Heap(), w, x)
      ensures h == old(h) && old(mmu.st).pool.stack != [] && mmu.st == MemoryState.Touched(old(mmu.st), w / 4096)
      ensures MemoryLayout.HeldKept(old(mmu.ram.frames), mmu.ram.frames, old(mmu.st), mmu.st, 0)
    {
      hide *;
      ghost var vm := mmu.Heap();
      ValidParts();
      Parts();
      mmu.HeapPages();
      PayloadPage(h, b, w);
      MemoryState.TouchedPages(mmu.st, w / 4096);
      ghost var s := mmu.st;
      ghost var before := mmu.WriteWord(w, x);
      StoreWrote(vm, mmu.Heap(), w, x, before);
      PayloadWrite(vm, mmu.Heap(), h, pools, poolArr, b, w, x);
      StillCovered(h, s, mmu.st);
      Whole();
      ValidWhole();
    }

    /** kfree's large path: the pages go back to MMU_free_pages. */
    method DropPages(oldMem: u64, n: nat)
      requires Ready() && oldMem in h.blocks && h.blocks[oldMem].Large? && h.blocks[oldMem].pages == n
      modifies `h, mmu`st, mmu.ram, mmu.pf
      ensures Ready() && h == DropLarge(old(h), oldMem)
      ensures OnlyRunGone(old(mmu.st), mmu.st, old(mmu.Heap()), mmu.Heap(), oldMem / 4096, n)
      ensures MemoryState.Inv(old(mmu.st))
              && (forall v :: oldMem / 4096 <= v < oldMem / 4096 + n ==> v in old(mmu.st).pages)
      ensures mmu.st == MemoryState.ReleasePages(old(mmu.st), oldMem / 4096, n)
      ensures MemoryLayout.HeldKept(old(mmu.ram.frames), mmu.ram.frames, old(mmu.st), mmu.st, 0)
    {
      hide *;
      ghost var g, vm, s := h, mmu.Heap(), mmu.st;
      Parts();
      mmu.HeapPages();
      LargeRun(g, s, oldMem);
      var ok := mmu.FreePages(oldMem, n);
      assert ok;
      MemoryState.ReleaseAll(s, oldMem / 4096, n);
      mmu.HeapPages();
      DropInMemory(vm, mmu.Heap(), g, pools, poolArr, oldMem);
      DropLargeKeeps(g, oldMem);
      DropUses(g, oldMem, s, mmu.st);
      RunGone(s, mmu.st, vm, mmu.Heap(), oldMem / 4096, n);
      h := DropLarge(g, oldMem);
      Whole();
    }

    /** kfree's pooled path: the header becomes a link to the old head. */
    method PushHead(i: nat, oldMem: u64)
      requires Ready() && i < POOLS && oldMem in h.blocks && h.blocks[oldMem].Live? && h.blocks[oldMem].pool == i
      modifies `pools, `h, mmu`st, mmu.ram, mmu.pf
      ensures Ready() && mmu.st == old(mmu.st) && h == PushChunk(old(h), oldMem)
      ensures KeptBut(old(mmu.Heap()), mmu.Heap(), oldMem)
      ensures MemoryLayout.HeldKept(old(mmu.ram.frames), mmu.ram.frames, old(mmu.st), mmu.st, 0)
    {
      hide *;
      ghost var g, vm := h, mmu.Heap();
      Parts();
      mmu.HeapPages();
      HeaderWords(vm, g, pools, poolArr, oldMem);
      PoolInMemory(vm, g, pools, poolArr, i);
      MemoryState.TouchedPages(mmu.st, oldMem / 4096);
      ghost var before := mmu.WriteWord(oldMem, pools[i].head);
      StoreWrote(vm, mmu.Heap(), oldMem, pools[i].head, before);
      PushInMemory(vm, mmu.Heap(), g, pools, poolArr, oldMem);
      WroteIsKeptBut(vm, mmu.Heap(), oldMem, pools[i].head);
      PushChunkKeeps(g, oldMem);
      PushUses(g, oldMem);
      pools := pools[i := pools[i].(head := oldMem)];
      h := PushChunk(g, oldMem);
      SameUses(g, h, mmu.st);
      Whole();
    }
  }
}
