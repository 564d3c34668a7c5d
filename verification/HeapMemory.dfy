/** kmalloc's headers and free-list links as they lie inside the blocks, in virtual
    memory: `vm` holds the contents of the mapped heap pages. */
module HeapMemory {
  import opened Geometry
  import opened MachineWords
  import opened PhysicalMemory
  import opened HeapBlocks

  type VMem = map<int, Frame>

  // kmalloc_pool_t without its constant max_size
  datatype PoolEntry = PoolEntry(avail: int, head: int)

  /** The word at virtual address `a`. */
  ghost function VWord(vm: VMem, a: int): u64 {
    if a / 4096 in vm then vm[a / 4096][a % 4096 / 8] else 0
  }

  /** One word changed; pages mapped before stay mapped and keep their other words. */
  ghost predicate Wrote(vm: VMem, vm': VMem, a: int, x: int) {
    && a / 4096 in vm' && vm'.Keys == vm.Keys + {a / 4096}
    && VWord(vm', a) == x
    && forall b :: b % 8 == 0 && b != a && b / 4096 in vm ==> VWord(vm', b) == VWord(vm, b)
  }

  /** Every mapped word kept. */
  ghost predicate Kept(vm: VMem, vm': VMem) {
    && vm.Keys <= vm'.Keys
    && forall b :: b % 8 == 0 && b / 4096 in vm ==> VWord(vm', b) == VWord(vm, b)
  }

  /** Every mapped word but the two header words at `c` kept. */
  ghost predicate KeptBut(vm: VMem, vm': VMem, c: int) {
    && vm.Keys <= vm'.Keys
    && forall b :: b % 8 == 0 && b != c && b != c + 8 && b / 4096 in vm ==> VWord(vm', b) == VWord(vm, b)
  }

  /** The store of `x` at `a` as the memory manager reports it. */
  lemma StoreWrote(vm: VMem, vm': VMem, a: int, x: u64, before: Frame)
    requires a % 8 == 0
    requires a / 4096 in vm ==> before == vm[a / 4096]
    requires vm' == vm[a / 4096 := before[a % 4096 / 8 := x]]
    ensures Wrote(vm, vm', a, x)
  {
    forall b | b % 8 == 0 && b != a && b / 4096 in vm ensures VWord(vm', b) == VWord(vm, b) {
      if b / 4096 == a / 4096 {
        assert b % 4096 / 8 != a % 4096 / 8 by { WordsDiffer(a, b); }
      }
    }
  }

  lemma WordsDiffer(a: int, b: int)
    requires a % 8 == 0 && b % 8 == 0 && a != b && a / 4096 == b / 4096
    ensures a % 4096 / 8 != b % 4096 / 8
  {
    WordSplit(a);
    WordSplit(b);
  }

  // ---- Representation ----------------------------------------------------------

  ghost function NextFree(l: seq<int>, n: nat): int {
    if n < |l| then l[n] else 0
  }

  /** Free chunk `n` of pool `i` is mapped and links to the next one. */
  ghost predicate LinkAt(vm: VMem, h: Heap, i: nat, n: nat) {
    i < |h.lists| && n < |h.lists[i]| ==>
      h.lists[i][n] / 4096 in vm && VWord(vm, h.lists[i][n]) == NextFree(h.lists[i], n + 1)
  }

  /** The header of block `a` names its pool and size. */
  ghost predicate HeaderAt(vm: VMem, h: Heap, base: int, a: int) {
    a in h.blocks && !h.blocks[a].Free? ==>
      && a / 4096 in vm
      && match h.blocks[a]
         case Live(i, _, bytes) => VWord(vm, a) == base + 24 * i && VWord(vm, a + 8) == bytes
         case Large(n, _) => VWord(vm, a) == 0 && VWord(vm, a + 8) == 4096 * n
         case Free(_, _) => true
  }

  ghost predicate PoolAt(h: Heap, pools: seq<PoolEntry>, i: nat) {
    i < POOLS && i < |pools| && i < |h.lists| && i < |h.tallies| ==>
      pools[i] == PoolEntry(Avail(h, i), NextFree(h.lists[i], 0))
  }

  /** `base` is the address of pool_arr. */
  ghost predicate InMemory(vm: VMem, h: Heap, pools: seq<PoolEntry>, base: int) {
    && |pools| == POOLS
    && (forall i: nat, n: nat :: LinkAt(vm, h, i, n))
    && (forall a :: HeaderAt(vm, h, base, a))
    && (forall i: nat :: PoolAt(h, pools, i))
  }

  lemma KeptInMemory(vm: VMem, vm': VMem, h: Heap, pools: seq<PoolEntry>, base: int)
    requires HeapBlocks.Inv(h) && InMemory(vm, h, pools, base) && Kept(vm, vm')
    ensures InMemory(vm', h, pools, base)
  {
    hide VWord, HeapBlocks.Inv;
    forall i: nat, n: nat ensures LinkAt(vm', h, i, n) { assert LinkAt(vm, h, i, n); FreeAligned(h, i, n); }
    forall a ensures HeaderAt(vm', h, base, a) { assert HeaderAt(vm, h, base, a); HeaderAligned(h, a); }
  }

  lemma FreeAligned(h: Heap, i: nat, n: nat)
    requires HeapBlocks.Inv(h)
    ensures i < |h.lists| && n < |h.lists[i]| ==>
              var c := h.lists[i][n];
              c in h.blocks && h.blocks[c].Free? && h.blocks[c].pool == i && c % 32 == 0 && c % 8 == 0 && c >= 4096
  {
    assert ListOk(h, i, n);
    if i < |h.lists| && n < |h.lists[i]| {
      hide HeapBlocks.Inv;
      HeaderAligned(h, h.lists[i][n]);
    }
  }

  lemma HeaderAligned(h: Heap, a: int)
    requires HeapBlocks.Inv(h)
    ensures a in h.blocks ==> a % 32 == 0 && a >= 4096 && (a + 8) / 4096 == a / 4096 && a % 8 == 0 && (a + 8) % 8 == 0
  {
    hide HeapBlocks.Inv;
    if a in h.blocks {
      BlockExtent(h, a);
      LineAligned(a);
    }
  }

  /** An in-bounds store of a block's owner: any word that overlaps the payload lies
      past the block's own header and inside its extent, so it is no link and no
      header of any block. */
  lemma PayloadWrite(vm: VMem, vm': VMem, h: Heap, pools: seq<PoolEntry>, base: int, b: int, w: int, x: int)
    requires HeapBlocks.Inv(h) && InMemory(vm, h, pools, base)
    requires b in h.blocks && !h.blocks[b].Free? && (h.blocks[b].Large? || h.blocks[b].pool < POOLS)
    requires w % 8 == 0 && b + HEADER < w + 8 && w < b + Extent(h.blocks[b])
    requires Wrote(vm, vm', w, x)
    ensures InMemory(vm', h, pools, base)
  {
    hide VWord, HeapBlocks.Inv, Extent;
    HeaderAligned(h, b);
    PastHeader(b, w);
    forall i: nat, n: nat ensures LinkAt(vm', h, i, n) {
      assert LinkAt(vm, h, i, n);
      FreeAligned(h, i, n);
      if i < |h.lists| && n < |h.lists[i]| { OffHeader(h, b, w, h.lists[i][n]); }
    }
    forall a ensures HeaderAt(vm', h, base, a) {
      assert HeaderAt(vm, h, base, a);
      HeaderAligned(h, a);
      if a in h.blocks { OffHeader(h, b, w, a); }
    }
  }

  lemma PastHeader(b: int, w: int)
    requires b % 8 == 0 && w % 8 == 0 && b + HEADER < w + 8
    ensures b + HEADER <= w
  {
    assert b == 8 * (b / 8) && w == 8 * (w / 8);
  }

  lemma OffHeader(h: Heap, b: int, w: int, a: int)
    requires HeapBlocks.Inv(h) && a in h.blocks && b in h.blocks && (h.blocks[b].Large? || h.blocks[b].pool < POOLS)
    requires b + HEADER <= w < b + Extent(h.blocks[b])
    ensures w != a && w != a + 8
  {
    hide HeapBlocks.Inv, Extent;
    BlockExtent(h, a);
    if a < b { BlocksApart(h, a, b); }
    if b < a { BlocksApart(h, b, a); }
  }

  /** What a call that rewrites only the header words of block `c` leaves alone: every
      word of the payload of every other block. */
  lemma PayloadsSurvive(vm: VMem, vm': VMem, h: Heap, c: int, b: int, w: int)
    requires HeapBlocks.Inv(h) && c in h.blocks && b in h.blocks && b != c
    requires h.blocks[b].Large? || h.blocks[b].pool < POOLS
    requires KeptBut(vm, vm', c)
    requires w % 8 == 0 && w / 4096 in vm && b <= w < b + Extent(h.blocks[b])
    ensures w / 4096 in vm' && VWord(vm', w) == VWord(vm, w)
  {
    hide VWord, Extent;
    BlockExtent(h, c);
    if c < b { BlocksApart(h, c, b); } else { BlocksApart(h, b, c); }
    hide HeapBlocks.Inv;
  }

  // ---- add_page ----------------------------------------------------------------

  /** Links written by add_page's loop after `n` rounds on page `v`. */
  ghost predicate Threaded(vm: VMem, i: nat, v: int, n: nat)
    requires i < POOLS
  {
    forall j: nat :: j < n ==> ThreadedAt(vm, i, v, j)
  }

  ghost predicate ThreadedAt(vm: VMem, i: nat, v: int, j: nat)
    requires i < POOLS
  {
    v in vm && VWord(vm, ChunkAt(i, v, j)) == ChunkAt(i, v, j + 1)
  }

  lemma ThreadStep(vm0: VMem, vm: VMem, vm': VMem, i: nat, v: int, n: nat, x: int)
    requires i < POOLS && n < ChunksPerPage(i) && 0 < v && v !in vm0
    requires Kept(vm0, vm) && Threaded(vm, i, v, n)
    requires Wrote(vm, vm', ChunkAt(i, v, n), x)
    ensures Kept(vm0, vm') && Threaded(vm', i, v, n)
    ensures v in vm' && vm'.Keys == vm.Keys + {v} && VWord(vm', ChunkAt(i, v, n)) == x
  {
    ChunkInPage(i, v, n);
    forall j: nat | j < n ensures ThreadedAt(vm', i, v, j) {
      assert ThreadedAt(vm, i, v, j);
      ChunkInPage(i, v, j);
      ChunksApart(i, v, j, n);
      ChunksFillPage(i);
    }
    hide MaxSize, ChunksPerPage;
  }

  /** The page's chunks, linked up and in front of the old list. */
  lemma AddPageInMemory(vm0: VMem, vm: VMem, h: Heap, pools: seq<PoolEntry>, base: int, i: nat, v: int)
    requires HeapBlocks.Inv(h) && InMemory(vm0, h, pools, base)
    requires i < POOLS && Unused(h, v) && Avail(h, i) == 0
    requires Kept(vm0, vm) && v in vm && Threaded(vm, i, v, ChunksPerPage(i) - 1)
    requires VWord(vm, ChunkAt(i, v, ChunksPerPage(i) - 1)) == pools[i].head
    ensures InMemory(vm, AddPage(h, i, v), pools[i := PoolEntry(ChunksPerPage(i), 4096 * v)], base)
  {
    var g, pools' := AddPage(h, i, v), pools[i := PoolEntry(ChunksPerPage(i), 4096 * v)];
    KeptInMemory(vm0, vm, h, pools, base);
    AddPageAvail(h, i, v);
    assert PoolAt(h, pools, i);
    forall k: nat, n: nat ensures LinkAt(vm, g, k, n) { AddPageLink(vm, h, pools, base, i, v, k, n); }
    forall a ensures HeaderAt(vm, g, base, a) {
      assert HeaderAt(vm, h, base, a);
      UnusedIsEmpty(h, v);
    }
    forall k: nat ensures PoolAt(g, pools', k) {
      assert PoolAt(h, pools, k);
      assert Chunks(i, v)[0] == 4096 * v;
    }
    hide HeapBlocks.Inv, InMemory, LinkAt, ChunksPerPage;
  }

  lemma AddPageLink(vm: VMem, h: Heap, pools: seq<PoolEntry>, base: int, i: nat, v: int, k: nat, n: nat)
    requires HeapBlocks.Inv(h) && InMemory(vm, h, pools, base)
    requires i < POOLS && Unused(h, v) && v in vm && Threaded(vm, i, v, ChunksPerPage(i) - 1)
    requires VWord(vm, ChunkAt(i, v, ChunksPerPage(i) - 1)) == NextFree(h.lists[i], 0)
    ensures LinkAt(vm, AddPage(h, i, v), k, n)
  {
    hide HeapBlocks.Inv, AddPage, VWord, ChunkAt, ChunksPerPage;
    var g, cs := AddPage(h, i, v), Chunks(i, v);
    AddPageLists(h, i, v);
    if k == i {
      ConcatNext(cs, h.lists[i], n);
      if n < |cs| {
        ChunkInPage(i, v, n);
        if n + 1 < |cs| { assert ThreadedAt(vm, i, v, n); }
      } else {
        assert LinkAt(vm, h, k, n - |cs|);
      }
    } else {
      assert LinkAt(vm, h, k, n);
    }
  }

  lemma AddPageLists(h: Heap, i: nat, v: int)
    requires HeapBlocks.Inv(h) && i < POOLS && Unused(h, v)
    ensures |h.lists| == POOLS && AddPage(h, i, v).lists == h.lists[i := Chunks(i, v) + h.lists[i]]
    ensures |Chunks(i, v)| == ChunksPerPage(i)
  {
  }

  lemma ConcatNext(cs: seq<int>, l: seq<int>, n: nat)
    ensures n < |cs| ==> (cs + l)[n] == cs[n]
    ensures n < |cs| ==> NextFree(cs + l, n + 1) == if n + 1 < |cs| then cs[n + 1] else NextFree(l, 0)
    ensures n >= |cs| ==>
              NextFree(cs + l, n) == NextFree(l, n - |cs|) && NextFree(cs + l, n + 1) == NextFree(l, n + 1 - |cs|)
    ensures |cs| <= n < |cs| + |l| ==> (cs + l)[n] == l[n - |cs|]
  {
  }

  // ---- kmalloc and kfree -------------------------------------------------------

  /** Header words over the popped chunk's link. */
  lemma PopInMemory(vm: VMem, vm1: VMem, vm2: VMem, h: Heap, pools: seq<PoolEntry>, base: int, i: nat, bytes: int)
    requires HeapBlocks.Inv(h) && InMemory(vm, h, pools, base) && i < POOLS && Avail(h, i) > 0
    requires HEADER < bytes && BestPool(bytes) == i
    requires h.lists[i] != [] && h.lists[i][0] in h.blocks && h.blocks[h.lists[i][0]].Free?
    requires Wrote(vm, vm1, h.lists[i][0], base + 24 * i) && Wrote(vm1, vm2, h.lists[i][0] + 8, bytes)
    ensures InMemory(vm2, PopChunk(h, i, bytes),
                     pools[i := PoolEntry(pools[i].avail - 1, NextFree(h.lists[i], 1))], base)
    ensures vm2.Keys == vm.Keys && KeptBut(vm, vm2, h.lists[i][0])
  {
    hide VWord;
    var g, c := PopChunk(h, i, bytes), h.lists[i][0];
    var pools' := pools[i := PoolEntry(pools[i].avail - 1, NextFree(h.lists[i], 1))];
    assert LinkAt(vm, h, i, 0);
    HeaderAligned(h, c);
    assert KeptBut(vm, vm2, c);
    forall k: nat, n: nat ensures LinkAt(vm2, g, k, n) { PopLink(vm, vm2, h, i, bytes, k, n); }
    forall a ensures HeaderAt(vm2, g, base, a) {
      assert HeaderAt(vm, h, base, a);
      HeaderAligned(h, a);
      if a in h.blocks { HeadersApart(h, c, a); }
    }
    forall k: nat ensures PoolAt(g, pools', k) { assert PoolAt(h, pools, k); }
    hide LinkAt, HeapBlocks.Inv;
  }

  lemma PopLink(vm: VMem, vm': VMem, h: Heap, i: nat, bytes: int, k: nat, n: nat)
    requires HeapBlocks.Inv(h) && i < POOLS
    requires forall a: nat, b: nat :: LinkAt(vm, h, a, b)
    requires h.lists[i] != [] && h.lists[i][0] in h.blocks && h.blocks[h.lists[i][0]].Free?
    requires KeptBut(vm, vm', h.lists[i][0])
    ensures LinkAt(vm', PopChunk(h, i, bytes), k, n)
  {
    hide VWord;
    var c, m := h.lists[i][0], if k == i then n + 1 else n;
    assert LinkAt(vm, h, k, m);
    assert TallyOk(h, i);
    hide HeapBlocks.Inv;
    if k < |h.lists| && m < |h.lists[k]| {
      FreeAligned(h, i, 0);
      FreeAligned(h, k, m);
      HeadersApart(h, c, h.lists[k][m]);
    }
  }

  /** Two blocks' header words are four different words. */
  lemma HeadersApart(h: Heap, a: int, b: int)
    requires HeapBlocks.Inv(h) && a in h.blocks && b in h.blocks
    ensures a != b ==> a + 8 < b || b + 8 < a
  {
    hide HeapBlocks.Inv;
    HeaderAligned(h, a);
    HeaderAligned(h, b);
    if a != b { LinesApart(a, b); }
  }

  lemma LinesApart(a: int, b: int)
    requires a % 32 == 0 && b % 32 == 0 && a != b
    ensures a + 8 < b || b + 8 < a
  {
    assert a == 32 * (a / 32) && b == 32 * (b / 32);
  }

  /** The link over the freed chunk's header. */
  lemma PushInMemory(vm: VMem, vm': VMem, h: Heap, pools: seq<PoolEntry>, base: int, c: int)
    requires HeapBlocks.Inv(h) && InMemory(vm, h, pools, base)
    requires c in h.blocks && h.blocks[c].Live? && h.blocks[c].pool < POOLS
    requires Wrote(vm, vm', c, pools[h.blocks[c].pool].head)
    ensures InMemory(vm', PushChunk(h, c), pools[h.blocks[c].pool := pools[h.blocks[c].pool].(head := c)], base)
    ensures vm'.Keys == vm.Keys
  {
    hide VWord;
    var g, i := PushChunk(h, c), h.blocks[c].pool;
    var pools' := pools[i := pools[i].(head := c)];
    assert PoolAt(h, pools, i) && HeaderAt(vm, h, base, c);
    HeaderAligned(h, c);
    assert KeptBut(vm, vm', c);
    forall k: nat, n: nat ensures LinkAt(vm', g, k, n) { PushLink(vm, vm', h, c, k, n); }
    forall a ensures HeaderAt(vm', g, base, a) {
      assert HeaderAt(vm, h, base, a);
      HeaderAligned(h, a);
      if a in h.blocks { HeadersApart(h, c, a); }
    }
    forall k: nat ensures PoolAt(g, pools', k) { assert PoolAt(h, pools, k); }
    hide LinkAt, HeapBlocks.Inv;
  }

  lemma PushLink(vm: VMem, vm': VMem, h: Heap, c: int, k: nat, n: nat)
    requires HeapBlocks.Inv(h)
    requires forall a: nat, b: nat :: LinkAt(vm, h, a, b)
    requires c in h.blocks && h.blocks[c].Live? && h.blocks[c].pool < POOLS
    requires KeptBut(vm, vm', c) && c / 4096 in vm && VWord(vm', c) == NextFree(h.lists[h.blocks[c].pool], 0)
    ensures LinkAt(vm', PushChunk(h, c), k, n)
  {
    hide VWord;
    var m: nat := if k == h.blocks[c].pool && n > 0 then n - 1 else n;
    assert LinkAt(vm, h, k, m);
    FreeAligned(h, k, m);
    if k < |h.lists| && m < |h.lists[k]| { HeadersApart(h, c, h.lists[k][m]); }
    hide HeapBlocks.Inv;
  }

  /** Header of a fresh large block. */
  lemma LargeInMemory(vm: VMem, vm1: VMem, vm2: VMem, h: Heap, pools: seq<PoolEntry>, base: int, v: int, n: nat,
      bytes: int)
    requires HeapBlocks.Inv(h) && InMemory(vm, h, pools, base)
    requires 1 <= n && v !in vm && forall w :: v <= w < v + n ==> Unused(h, w)
    requires Wrote(vm, vm1, 4096 * v, 0) && Wrote(vm1, vm2, 4096 * v + 8, 4096 * n)
    ensures InMemory(vm2, AddLarge(h, v, n, bytes), pools, base)
    ensures vm2.Keys == vm.Keys + {v}
  {
    var g := AddLarge(h, v, n, bytes);
    assert Unused(h, v);
    UnusedIsEmpty(h, v);
    FrameAddress(v);
    FreshPage(vm, vm1, vm2, v, 4096 * n);
    KeptInMemory(vm, vm2, h, pools, base);
    hide HeapBlocks.Inv, VWord;
    forall k: nat, m: nat ensures LinkAt(vm2, g, k, m) { assert LinkAt(vm2, h, k, m); }
    forall a ensures HeaderAt(vm2, g, base, a) { assert HeaderAt(vm2, h, base, a); }
    forall k: nat ensures PoolAt(g, pools, k) { assert PoolAt(h, pools, k); }
  }

  lemma FreshPage(vm: VMem, vm1: VMem, vm2: VMem, v: int, x: int)
    requires v !in vm && Wrote(vm, vm1, 4096 * v, 0) && Wrote(vm1, vm2, 4096 * v + 8, x)
    ensures Kept(vm, vm2) && vm2.Keys == vm.Keys + {v}
    ensures VWord(vm2, 4096 * v) == 0 && VWord(vm2, 4096 * v + 8) == x
  {
    hide VWord;
    FrameAddress(v);
  }

  /** A large block's pages are gone, everybody else's are not. */
  lemma DropInMemory(vm: VMem, vm': VMem, h: Heap, pools: seq<PoolEntry>, base: int, a: int)
    requires HeapBlocks.Inv(h) && InMemory(vm, h, pools, base) && a in h.blocks && h.blocks[a].Large?
    requires forall v :: v in vm && !(a / 4096 <= v < a / 4096 + h.blocks[a].pages) ==> v in vm' && vm'[v] == vm[v]
    ensures InMemory(vm', DropLarge(h, a), pools, base)
  {
    var g := DropLarge(h, a);
    forall k: nat, m: nat ensures LinkAt(vm', g, k, m) {
      assert LinkAt(vm, h, k, m);
      FreeAligned(h, k, m);
      if k < |h.lists| && m < |h.lists[k]| { OutsideLarge(h, a, h.lists[k][m]); }
    }
    forall b ensures HeaderAt(vm', g, base, b) {
      assert HeaderAt(vm, h, base, b);
      HeaderAligned(h, b);
      if b in g.blocks { OutsideLarge(h, a, b); }
    }
    forall k: nat ensures PoolAt(g, pools, k) { assert PoolAt(h, pools, k); }
  }

  /** kmalloc's data lie in its own pages: changes elsewhere do not matter to it. */
  lemma UsesKept(vm: VMem, vm': VMem, h: Heap, pools: seq<PoolEntry>, base: int)
    requires HeapBlocks.Inv(h) && InMemory(vm, h, pools, base)
    requires forall v :: v in h.uses && v in vm ==> v in vm' && vm'[v] == vm[v]
    ensures InMemory(vm', h, pools, base)
  {
    forall k: nat, m: nat ensures LinkAt(vm', h, k, m) {
      assert LinkAt(vm, h, k, m);
      FreeAligned(h, k, m);
      if k < |h.lists| && m < |h.lists[k]| { BlockExtent(h, h.lists[k][m]); }
    }
    forall b ensures HeaderAt(vm', h, base, b) {
      assert HeaderAt(vm, h, base, b);
      HeaderAligned(h, b);
      if b in h.blocks { BlockExtent(h, b); }
    }
    hide HeapBlocks.Inv, Extent;
  }

  lemma OutsideLarge(h: Heap, a: int, b: int)
    requires HeapBlocks.Inv(h) && a in h.blocks && b in h.blocks && a != b && h.blocks[a].Large?
    ensures !(a / 4096 <= b / 4096 < a / 4096 + h.blocks[a].pages)
  {
    BlockExtent(h, a);
    BlockExtent(h, b);
    if a < b { BlocksApart(h, a, b); } else { BlocksApart(h, b, a); }
    hide HeapBlocks.Inv;
  }
}
