/** kmalloc.c seen from outside: which addresses are chunks or large blocks, which
    of them are free, and in which order each pool will hand its chunks out. */
module HeapBlocks {
  import opened Geometry
  import opened Sequences

  const HEADER := 16
  const POOLS := 7

  datatype Block =
    | Free(pool: nat, slot: nat)              // chunk on the pool's free list
    | Live(pool: nat, slot: nat, bytes: int)  // chunk handed out; header and payload need `bytes`
    | Large(pages: nat, bytes: int)           // a run of pages of its own for `bytes`

  datatype Use = PoolPage(pool: nat) | LargePage(block: int)

  // Pages taken, chunks handed out and chunks given back, since start-up.
  datatype Tally = Tally(pages: nat, allocs: nat, frees: nat)

  datatype Heap = Heap(
    blocks: map<int, Block>,     // by address of the header
    uses: map<int, Use>,         // by page number
    lists: seq<seq<int>>,        // free chunks, head first
    tallies: seq<Tally>)

  /** pool_arr[i].max_size */
  function MaxSize(i: nat): int
    requires i < POOLS
  {
    if i == 0 then 32 else if i == 1 then 64 else if i == 2 then 128 else if i == 3 then 256
    else if i == 4 then 512 else if i == 5 then 1024 else 2048
  }

  /** PAGE_SIZE / max_size */
  function ChunksPerPage(i: nat): int
    requires i < POOLS
  {
    if i == 0 then 128 else if i == 1 then 64 else if i == 2 then 32 else if i == 3 then 16
    else if i == 4 then 8 else if i == 5 then 4 else 2
  }

  /** get_best_pool; POOLS stands for NULL. */
  function BestPool(bytes: int): nat {
    if bytes <= 32 then 0 else if bytes <= 64 then 1 else if bytes <= 128 then 2 else if bytes <= 256 then 3
    else if bytes <= 512 then 4 else if bytes <= 1024 then 5 else if bytes <= 2048 then 6 else 7
  }

  /** The pool found is the smallest that fits, and a chunk is less than twice what
      is needed once that exceeds the smallest chunk. */
  lemma BestPoolIsTight(bytes: int)
    requires bytes > HEADER
    ensures BestPool(bytes) <= POOLS
    ensures BestPool(bytes) == POOLS <==> bytes > 2048
    ensures forall i: nat :: i < POOLS ==> (bytes <= MaxSize(i) <==> BestPool(bytes) <= i)
    ensures BestPool(bytes) < POOLS && bytes > 32 ==> MaxSize(BestPool(bytes)) < 2 * bytes
  {
  }

  /** Address of chunk `j` of page `v` in pool `i`. */
  function ChunkAt(i: nat, v: int, j: int): int
    requires i < POOLS
  {
    4096 * v + j * MaxSize(i)
  }

  lemma ChunksFillPage(i: nat)
    requires i < POOLS
    ensures MaxSize(i) * ChunksPerPage(i) == 4096 && MaxSize(i) % 32 == 0 && MaxSize(i) >= 32
    ensures 4096 / MaxSize(i) == ChunksPerPage(i)
  {
  }

  /** A chunk lies inside its page, on a 32-byte boundary. */
  lemma ChunkInPage(i: nat, v: int, j: int)
    requires i < POOLS && 0 <= v && 0 <= j < ChunksPerPage(i)
    ensures var a := ChunkAt(i, v, j);
            a / 4096 == v && a % 4096 == j * MaxSize(i) && a % 4096 + MaxSize(i) <= 4096 && a % 32 == 0 && 0 <= a
  {
    ChunksFillPage(i);
    var s, k := MaxSize(i), ChunksPerPage(i);
    assert 0 <= j * s <= (k - 1) * s == 4096 - s;
    assert j * s % 32 == 0 by { ChunkMultiple(i, j); }
    hide MaxSize, ChunksPerPage;
  }

  lemma ChunkMultiple(i: nat, j: nat)
    requires i < POOLS
    ensures j * MaxSize(i) % 32 == 0
  {
    ChunksFillPage(i);
    hide MaxSize;
    var c := MaxSize(i) / 32;
    assert MaxSize(i) == 32 * c;
    assert j * MaxSize(i) == 32 * (j * c);
    Multiples32(j * c);
  }

  /** Different chunks of a page do not overlap. */
  lemma ChunksApart(i: nat, v: int, j: int, l: int)
    requires i < POOLS && 0 <= j < l
    ensures ChunkAt(i, v, j) + MaxSize(i) <= ChunkAt(i, v, l)
  {
    ChunksFillPage(i);
    var s := MaxSize(i);
    assert l * s - j * s == (l - j) * s >= s;
    hide MaxSize;
  }

  // ---- The invariant, pointwise ------------------------------------------------

  /** Chunk `a` is slot `j` of a page that pool `i` took. */
  ghost predicate InSlot(h: Heap, a: int, i: nat, j: nat) {
    && i < POOLS && j < ChunksPerPage(i)
    && a == ChunkAt(i, a / 4096, j)
    && a / 4096 in h.uses && h.uses[a / 4096] == PoolPage(i)
  }

  ghost predicate UsedBy(h: Heap, v: int, a: int) {
    v in h.uses && h.uses[v] == LargePage(a)
  }

  ghost predicate HasChunk(h: Heap, i: nat, v: int, j: nat)
    requires i < POOLS
  {
    j < ChunksPerPage(i) ==> ChunkAt(i, v, j) in h.blocks
  }

  ghost predicate BlockOk(h: Heap, a: int) {
    a in h.blocks ==>
      match h.blocks[a]
      case Free(i, j) => InSlot(h, a, i, j) && i < |h.lists| && a in h.lists[i]
      case Live(i, j, bytes) => InSlot(h, a, i, j) && HEADER < bytes && BestPool(bytes) == i
      case Large(n, bytes) =>
        && a % 4096 == 0 && 1 <= n && HEADER < bytes && n == LargePages(bytes)
        && forall v :: a / 4096 <= v < a / 4096 + n ==> UsedBy(h, v, a)
  }

  ghost predicate UseOk(h: Heap, v: int) {
    v in h.uses ==>
      && 0 < v
      && match h.uses[v]
         case PoolPage(i) => i < POOLS && forall j: nat :: HasChunk(h, i, v, j)
         case LargePage(a) => a in h.blocks && h.blocks[a].Large? && a / 4096 <= v < a / 4096 + h.blocks[a].pages
  }

  ghost predicate ListOk(h: Heap, i: nat, n: nat) {
    i < |h.lists| && n < |h.lists[i]| ==>
      h.lists[i][n] in h.blocks && h.blocks[h.lists[i][n]].Free? && h.blocks[h.lists[i][n]].pool == i
  }

  ghost function LiveChunks(h: Heap, i: nat): set<int> {
    set a | a in h.blocks && h.blocks[a].Live? && h.blocks[a].pool == i
  }

  /** pool_arr[i].avail: chunks never handed out yet. */
  function Avail(h: Heap, i: nat): int
    requires i < POOLS && i < |h.tallies|
  {
    ChunksPerPage(i) * h.tallies[i].pages - h.tallies[i].allocs
  }

  /** Lengths and counts of one pool. */
  ghost predicate TallyOk(h: Heap, i: nat) {
    i < POOLS && i < |h.lists| && i < |h.tallies| ==>
      var t := h.tallies[i];
      && 0 <= Avail(h, i) && t.frees <= t.allocs
      && Avail(h, i) <= ChunksPerPage(i)
      && |h.lists[i]| == Avail(h, i) + t.frees
      && |LiveChunks(h, i)| == t.allocs - t.frees
      && Distinct(h.lists[i])
  }

  ghost predicate Inv(h: Heap) {
    && |h.lists| == POOLS && |h.tallies| == POOLS
    && (forall a :: BlockOk(h, a))
    && (forall v :: UseOk(h, v))
    && (forall i: nat, n: nat :: ListOk(h, i, n))
    && (forall i: nat :: TallyOk(h, i))
  }

  /** Between calls a pool that has served anybody keeps less than one whole page. */
  ghost predicate Settled(h: Heap) {
    forall i :: 0 <= i < POOLS && i < |h.tallies| && h.tallies[i].allocs > 0 ==> Avail(h, i) < ChunksPerPage(i)
  }

  // ---- Operations --------------------------------------------------------------

  function Empty(): Heap {
    Heap(map[], map[], seq(POOLS, _ => []), seq(POOLS, _ => Tally(0, 0, 0)))
  }

  lemma EmptyInv()
    ensures Inv(Empty())
  {
    forall i: nat ensures TallyOk(Empty(), i) {
      assert LiveChunks(Empty(), i) == {};
    }
  }

  /** The blocks after the first `n` chunks of page `v` were threaded. */
  function WithChunks(blocks: map<int, Block>, i: nat, v: int, n: nat): (r: map<int, Block>)
    requires i < POOLS && n <= ChunksPerPage(i) && 0 <= v
    requires forall a :: a in blocks ==> a / 4096 != v
    ensures forall j: nat :: j < n ==> ChunkAt(i, v, j) in r && r[ChunkAt(i, v, j)] == Free(i, j)
    ensures forall a :: a in r && a / 4096 == v ==>
              r[a].Free? && r[a].pool == i && r[a].slot < n && a == ChunkAt(i, v, r[a].slot)
    ensures forall a :: a / 4096 != v ==> (a in r <==> a in blocks) && (a in blocks ==> r[a] == blocks[a])
    decreases n
  {
    if n == 0 then blocks
    else
      ChunkInPage(i, v, n - 1);
      var r := WithChunks(blocks, i, v, n - 1);
      assert forall j: nat :: j < n - 1 ==> ChunkAt(i, v, j) != ChunkAt(i, v, n - 1) by {
        forall j: nat | j < n - 1 ensures ChunkAt(i, v, j) != ChunkAt(i, v, n - 1) {
          ChunksApart(i, v, j, n - 1);
          ChunksFillPage(i);
        }
      }
      r[ChunkAt(i, v, n - 1) := Free(i, n - 1)]
  }

  function Chunks(i: nat, v: int): seq<int>
    requires i < POOLS
  {
    seq(ChunksPerPage(i), j => ChunkAt(i, v, j))
  }

  ghost predicate Unused(h: Heap, v: int) {
    0 < v && v !in h.uses
  }

  /** Nothing lies in a page that is not in use. */
  lemma UnusedIsEmpty(h: Heap, v: int)
    requires Inv(h) && Unused(h, v)
    ensures forall a :: a in h.blocks ==> a / 4096 != v
  {
    forall a | a in h.blocks ensures a / 4096 != v {
      assert BlockOk(h, a);
      if h.blocks[a].Large? { assert UsedBy(h, a / 4096, a); }
    }
  }

  /** add_page: the page's chunks go in front of the pool's free list. */
  ghost function AddPage(h: Heap, i: nat, v: int): Heap
    requires Inv(h) && i < POOLS && Unused(h, v)
  {
    UnusedIsEmpty(h, v);
    h.(blocks := WithChunks(h.blocks, i, v, ChunksPerPage(i)),
       uses := h.uses[v := PoolPage(i)],
       lists := h.lists[i := Chunks(i, v) + h.lists[i]],
       tallies := h.tallies[i := h.tallies[i].(pages := h.tallies[i].pages + 1)])
  }

  lemma AddPageKeeps(h: Heap, i: nat, v: int)
    requires Inv(h) && i < POOLS && Unused(h, v) && Avail(h, i) == 0
    ensures Inv(AddPage(h, i, v)) && Avail(AddPage(h, i, v), i) == ChunksPerPage(i)
  {
    AddPageAvail(h, i, v);
    hide TallyOk, ListOk, UseOk, BlockOk, AddPage, Avail;
    var g := AddPage(h, i, v);
    forall a ensures BlockOk(g, a) { AddPageBlock(h, i, v, a); }
    forall w ensures UseOk(g, w) { AddPageUse(h, i, v, w); }
    forall k: nat, n: nat ensures ListOk(g, k, n) { AddPageList(h, i, v, k, n); }
    forall k: nat ensures TallyOk(g, k) { AddPageTally(h, i, v, k); }
  }

  lemma AddPageAvail(h: Heap, i: nat, v: int)
    requires Inv(h) && i < POOLS && Unused(h, v) && Avail(h, i) == 0
    ensures var g := AddPage(h, i, v);
            && |g.lists| == POOLS && |g.tallies| == POOLS && Avail(g, i) == ChunksPerPage(i)
            && (forall k :: 0 <= k < POOLS && k != i ==> g.tallies[k] == h.tallies[k])
  {
    var p := h.tallies[i].pages;
    assert ChunksPerPage(i) * (p + 1) == ChunksPerPage(i) * p + ChunksPerPage(i);
    hide Inv;
  }

  lemma AddPageBlock(h: Heap, i: nat, v: int, a: int)
    requires Inv(h) && i < POOLS && Unused(h, v)
    ensures BlockOk(AddPage(h, i, v), a)
  {
    var g, cs := AddPage(h, i, v), Chunks(i, v);
    UnusedIsEmpty(h, v);
    assert BlockOk(h, a);
    if a in g.blocks && a / 4096 == v {
      var j := g.blocks[a].slot;
      assert cs[j] == a && a in cs;
      ChunkInPage(i, v, j);
    } else if a in h.blocks && h.blocks[a].Large? {
      forall w | a / 4096 <= w < a / 4096 + h.blocks[a].pages ensures UsedBy(g, w, a) { assert UsedBy(h, w, a); }
    }
  }

  lemma AddPageUse(h: Heap, i: nat, v: int, w: int)
    requires Inv(h) && i < POOLS && Unused(h, v)
    ensures UseOk(AddPage(h, i, v), w)
  {
    var g := AddPage(h, i, v);
    assert UseOk(h, w);
    UnusedIsEmpty(h, v);
    if w in g.uses && g.uses[w].PoolPage? {
      var k := g.uses[w].pool;
      forall j: nat ensures HasChunk(g, k, w, j) {
        if w != v {
          assert HasChunk(h, k, w, j);
          if j < ChunksPerPage(k) { ChunkInPage(k, w, j); }
        }
      }
    } else if w in g.uses {
      assert BlockOk(h, g.uses[w].block) && UsedBy(h, w, g.uses[w].block);
    }
  }

  lemma AddPageList(h: Heap, i: nat, v: int, k: nat, n: nat)
    requires Inv(h) && i < POOLS && Unused(h, v)
    ensures ListOk(AddPage(h, i, v), k, n)
  {
    var g, cs := AddPage(h, i, v), Chunks(i, v);
    UnusedIsEmpty(h, v);
    if k == i && n < |cs| {
      ChunkInPage(i, v, n);
    } else {
      var m := if k == i then n - |cs| else n;
      assert ListOk(h, k, m);
    }
  }

  lemma AddPageTally(h: Heap, i: nat, v: int, k: nat)
    requires Inv(h) && i < POOLS && Unused(h, v) && Avail(h, i) == 0
    ensures TallyOk(AddPage(h, i, v), k)
  {
    var g, cs := AddPage(h, i, v), Chunks(i, v);
    assert TallyOk(h, k);
    UnusedIsEmpty(h, v);
    assert LiveChunks(g, k) == LiveChunks(h, k);
    AddPageAvail(h, i, v);
    assert g.lists == h.lists[i := cs + h.lists[i]];
    if k == i { AddPageDistinct(h, i, v); }
    hide Inv, AddPage, WithChunks, LiveChunks, ChunksPerPage, Distinct;
  }

  /** The new page's chunks are in no list yet. */
  lemma AddPageDistinct(h: Heap, i: nat, v: int)
    requires Inv(h) && i < POOLS && Unused(h, v)
    ensures Distinct(Chunks(i, v) + h.lists[i])
  {
    var cs, l := Chunks(i, v), h.lists[i];
    assert TallyOk(h, i);
    ChunksDistinct(i, v);
    UnusedIsEmpty(h, v);
    var m := cs + l;
    forall x, y | 0 <= x < y < |m| ensures m[x] != m[y] {
      if x < |cs| && y >= |cs| {
        ChunkInPage(i, v, x);
        assert ListOk(h, i, y - |cs|);
      }
    }
    hide Inv, ChunksPerPage, ChunkAt;
  }

  lemma ChunksDistinct(i: nat, v: int)
    requires i < POOLS && 0 <= v
    ensures Distinct(Chunks(i, v))
  {
    var cs := Chunks(i, v);
    forall x, y | 0 <= x < y < |cs| ensures cs[x] != cs[y] {
      ChunksApart(i, v, x, y);
      ChunksFillPage(i);
    }
  }

  /** The pooled path of kmalloc: the head of the list becomes a block. */
  function PopChunk(h: Heap, i: nat, bytes: int): Heap
    requires i < POOLS && i < |h.lists| && i < |h.tallies| && h.lists[i] != []
    requires h.lists[i][0] in h.blocks && h.blocks[h.lists[i][0]].Free?
  {
    var c, t := h.lists[i][0], h.tallies[i];
    h.(blocks := h.blocks[c := Live(i, h.blocks[c].slot, bytes)],
       lists := h.lists[i := h.lists[i][1..]],
       tallies := h.tallies[i := t.(allocs := t.allocs + 1)])
  }

  lemma PopChunkKeeps(h: Heap, i: nat, bytes: int)
    requires Inv(h) && i < POOLS && Avail(h, i) > 0 && HEADER < bytes && BestPool(bytes) == i
    ensures h.lists[i] != [] && h.lists[i][0] in h.blocks && h.blocks[h.lists[i][0]].Free?
    ensures var g := PopChunk(h, i, bytes);
            Inv(g) && Avail(g, i) == Avail(h, i) - 1 && Avail(g, i) < ChunksPerPage(i)
    ensures forall k :: 0 <= k < POOLS && k != i ==> PopChunk(h, i, bytes).tallies[k] == h.tallies[k]
  {
    assert TallyOk(h, i) && ListOk(h, i, 0);
    var g, c := PopChunk(h, i, bytes), h.lists[i][0];
    forall a ensures BlockOk(g, a) { PopBlock(h, i, bytes, a); }
    forall w ensures UseOk(g, w) { SameChunksUse(h, g, w); }
    forall k: nat, n: nat ensures ListOk(g, k, n) {
      assert ListOk(h, k, if k == i then n + 1 else n);
      assert ListOk(h, k, n);
    }
    forall k: nat ensures TallyOk(g, k) { PopTally(h, i, bytes, k); }
    hide UseOk, TallyOk, BlockOk;
  }

  lemma PopBlock(h: Heap, i: nat, bytes: int, a: int)
    requires Inv(h) && i < POOLS && HEADER < bytes && BestPool(bytes) == i
    requires h.lists[i] != [] && h.lists[i][0] in h.blocks && h.blocks[h.lists[i][0]].Free?
    requires h.blocks[h.lists[i][0]].pool == i
    ensures BlockOk(PopChunk(h, i, bytes), a)
  {
    var g := PopChunk(h, i, bytes);
    assert BlockOk(h, a);
    if a in h.blocks && h.blocks[a].Large? {
      forall w | a / 4096 <= w < a / 4096 + h.blocks[a].pages ensures UsedBy(g, w, a) { assert UsedBy(h, w, a); }
    }
  }

  lemma PopTally(h: Heap, i: nat, bytes: int, k: nat)
    requires Inv(h) && i < POOLS && Avail(h, i) > 0
    requires h.lists[i] != [] && h.lists[i][0] in h.blocks && h.blocks[h.lists[i][0]].Free?
    ensures TallyOk(PopChunk(h, i, bytes), k)
  {
    var g, c := PopChunk(h, i, bytes), h.lists[i][0];
    assert TallyOk(h, k);
    assert LiveChunks(g, k) == if k == i then LiveChunks(h, k) + {c} else LiveChunks(h, k);
    hide Inv;
  }

  /** Chunks changing between free and live do not disturb the page ledger. */
  lemma SameChunksUse(h: Heap, g: Heap, w: int)
    requires UseOk(h, w) && g.uses == h.uses && g.blocks.Keys == h.blocks.Keys
    requires forall a :: a in h.blocks && h.blocks[a].Large? ==> g.blocks[a] == h.blocks[a]
    ensures UseOk(g, w)
  {
    if w in h.uses && h.uses[w].PoolPage? {
      forall j: nat ensures HasChunk(g, h.uses[w].pool, w, j) { assert HasChunk(h, h.uses[w].pool, w, j); }
    }
  }

  /** The pooled path of kfree: the block becomes the head of its pool's list. */
  function PushChunk(h: Heap, c: int): Heap
    requires c in h.blocks && h.blocks[c].Live? && h.blocks[c].pool < |h.lists| && h.blocks[c].pool < |h.tallies|
  {
    var i := h.blocks[c].pool;
    var t := h.tallies[i];
    h.(blocks := h.blocks[c := Free(i, h.blocks[c].slot)],
       lists := h.lists[i := [c] + h.lists[i]],
       tallies := h.tallies[i := t.(frees := t.frees + 1)])
  }

  lemma PushChunkKeeps(h: Heap, c: int)
    requires Inv(h) && c in h.blocks && h.blocks[c].Live?
    ensures h.blocks[c].pool < POOLS && Inv(PushChunk(h, c))
    ensures forall k :: 0 <= k < POOLS ==> Avail(PushChunk(h, c), k) == Avail(h, k)
  {
    assert BlockOk(h, c);
    var g, i := PushChunk(h, c), h.blocks[c].pool;
    forall a ensures BlockOk(g, a) {
      assert BlockOk(h, a);
      if a in h.blocks && h.blocks[a].Large? {
        forall w | a / 4096 <= w < a / 4096 + h.blocks[a].pages ensures UsedBy(g, w, a) { assert UsedBy(h, w, a); }
      }
    }
    forall w ensures UseOk(g, w) { SameChunksUse(h, g, w); }
    forall k: nat, n: nat ensures ListOk(g, k, n) {
      if k == i && n > 0 { assert ListOk(h, k, n - 1); } else { assert ListOk(h, k, n); }
    }
    forall k: nat ensures TallyOk(g, k) { PushTally(h, c, k); }
    hide UseOk, TallyOk;
  }

  lemma PushTally(h: Heap, c: int, k: nat)
    requires Inv(h) && c in h.blocks && h.blocks[c].Live? && h.blocks[c].pool < POOLS
    ensures TallyOk(PushChunk(h, c), k)
  {
    var g, i := PushChunk(h, c), h.blocks[c].pool;
    assert TallyOk(h, k);
    assert c in LiveChunks(h, i);
    assert LiveChunks(g, k) == if k == i then LiveChunks(h, k) - {c} else LiveChunks(h, k);
    if k == i {
      var l := h.lists[i];
      forall x | 0 <= x < |l| ensures l[x] != c { assert ListOk(h, i, x); }
    }
    hide Inv;
  }

  /** Pages v .. v + n - 1 put to the use of one large block. */
  function WithRun(uses: map<int, Use>, v: int, n: nat, a: int): (r: map<int, Use>)
    ensures forall w :: v <= w < v + n ==> w in r && r[w] == LargePage(a)
    ensures forall w :: !(v <= w < v + n) ==> (w in r <==> w in uses) && (w in uses ==> r[w] == uses[w])
    decreases n
  {
    if n == 0 then uses else WithRun(uses, v, n - 1, a)[v + n - 1 := LargePage(a)]
  }

  /** The large path of kmalloc: `n` fresh pages from page `v` for `bytes`. */
  function AddLarge(h: Heap, v: int, n: nat, bytes: int): Heap {
    h.(blocks := h.blocks[4096 * v := Large(n, bytes)], uses := WithRun(h.uses, v, n, 4096 * v))
  }

  lemma AddLargeKeeps(h: Heap, v: int, n: nat, bytes: int)
    requires Inv(h) && 1 <= n && HEADER < bytes && n == LargePages(bytes)
    requires forall w :: v <= w < v + n ==> Unused(h, w)
    ensures Inv(AddLarge(h, v, n, bytes)) && 4096 * v !in h.blocks
  {
    var g := AddLarge(h, v, n, bytes);
    assert Unused(h, v);
    UnusedIsEmpty(h, v);
    assert 4096 * v !in h.blocks;
    forall a ensures BlockOk(g, a) {
      assert BlockOk(h, a);
      if a in g.blocks && g.blocks[a].Large? {
        forall w | a / 4096 <= w < a / 4096 + g.blocks[a].pages ensures UsedBy(g, w, a) {
          if a != 4096 * v { assert UsedBy(h, w, a) && (v <= w < v + n ==> Unused(h, w)); }
        }
      } else if a in g.blocks {
        var u := a / 4096;
        assert v <= u < v + n ==> Unused(h, u);
      }
    }
    forall w ensures UseOk(g, w) { AddLargeUse(h, v, n, bytes, w); }
    forall k: nat, m: nat ensures ListOk(g, k, m) { assert ListOk(h, k, m); }
    forall k: nat ensures TallyOk(g, k) {
      assert TallyOk(h, k);
      assert LiveChunks(g, k) == LiveChunks(h, k);
    }
    hide UseOk;
  }

  lemma AddLargeUse(h: Heap, v: int, n: nat, bytes: int, w: int)
    requires Inv(h) && 1 <= n && forall x :: v <= x < v + n ==> Unused(h, x)
    requires 4096 * v !in h.blocks
    ensures UseOk(AddLarge(h, v, n, bytes), w)
  {
    var g := AddLarge(h, v, n, bytes);
    assert UseOk(h, w);
    if v <= w < v + n {
      assert Unused(h, w);
    } else if w in g.uses && g.uses[w].PoolPage? {
      forall j: nat ensures HasChunk(g, g.uses[w].pool, w, j) { assert HasChunk(h, g.uses[w].pool, w, j); }
    }
  }

  /** The large path of kfree. */
  ghost function DropLarge(h: Heap, a: int): Heap
    requires a in h.blocks && h.blocks[a].Large?
  {
    h.(blocks := h.blocks - {a},
       uses := map w | w in h.uses && !(a / 4096 <= w < a / 4096 + h.blocks[a].pages) :: h.uses[w])
  }

  lemma DropLargeKeeps(h: Heap, a: int)
    requires Inv(h) && a in h.blocks && h.blocks[a].Large?
    ensures Inv(DropLarge(h, a))
  {
    var g, v, n := DropLarge(h, a), a / 4096, h.blocks[a].pages;
    assert BlockOk(h, a);
    forall b ensures BlockOk(g, b) {
      assert BlockOk(h, b);
      if b in g.blocks && g.blocks[b].Large? {
        forall w | b / 4096 <= w < b / 4096 + g.blocks[b].pages ensures UsedBy(g, w, b) {
          assert UsedBy(h, w, b) && (v <= w < v + n ==> UsedBy(h, w, a));
        }
      } else if b in g.blocks {
        assert v <= b / 4096 < v + n ==> UsedBy(h, b / 4096, a);
      }
    }
    forall w ensures UseOk(g, w) {
      assert UseOk(h, w);
      if w in g.uses && g.uses[w].PoolPage? {
        forall j: nat ensures HasChunk(g, g.uses[w].pool, w, j) {
          assert HasChunk(h, g.uses[w].pool, w, j);
          if j < ChunksPerPage(g.uses[w].pool) {
            ChunkInPage(g.uses[w].pool, w, j);
            assert UsedBy(h, v, a);
          }
        }
      }
    }
    forall k: nat, m: nat ensures ListOk(g, k, m) { assert ListOk(h, k, m); }
    forall k: nat ensures TallyOk(g, k) {
      assert TallyOk(h, k);
      assert LiveChunks(g, k) == LiveChunks(h, k);
    }
  }

  // ---- What the invariant means ------------------------------------------------

  /** Bytes from a block's header to its end. */
  function Extent(b: Block): int
    requires b.Large? || b.pool < POOLS
  {
    match b
    case Free(i, _) => MaxSize(i)
    case Live(i, _, _) => MaxSize(i)
    case Large(n, _) => 4096 * n
  }

  /** A chunk stays inside its page, a large block inside its run; both are aligned,
      and every live block holds its header and the bytes asked for. */
  lemma BlockExtent(h: Heap, a: int)
    requires Inv(h) && a in h.blocks
    ensures h.blocks[a].Large? || h.blocks[a].pool < POOLS
    ensures 4096 <= a && a % 32 == 0
    ensures !h.blocks[a].Large? ==> a % 4096 + Extent(h.blocks[a]) <= 4096
    ensures h.blocks[a].Large? ==> a % 4096 == 0
    ensures !h.blocks[a].Free? ==> HEADER < h.blocks[a].bytes <= Extent(h.blocks[a])
    ensures HEADER < Extent(h.blocks[a])
    ensures a / 4096 in h.uses
  {
    assert BlockOk(h, a);
    if h.blocks[a].Large? { assert UsedBy(h, a / 4096, a); }
    assert UseOk(h, a / 4096);
    hide Inv, BestPool, MaxSize, ChunksPerPage, ChunkAt;
    match h.blocks[a]
    case Free(i, j) => ChunkInPage(i, a / 4096, j); ChunksFillPage(i);
    case Live(i, j, bytes) => ChunkInPage(i, a / 4096, j); ChunksFillPage(i); BestPoolIsTight(bytes);
    case Large(n, bytes) => LargePagesLeast(bytes, n); Multiples4096(a / 4096); assert a == 4096 * (a / 4096);
  }

  /** Any two blocks - live, free or large - are disjoint, headers included. */
  lemma BlocksApart(h: Heap, a: int, b: int)
    requires Inv(h) && a in h.blocks && b in h.blocks && a < b
    ensures h.blocks[a].Large? || h.blocks[a].pool < POOLS
    ensures a + Extent(h.blocks[a]) <= b
  {
    BlockExtent(h, a);
    BlockExtent(h, b);
    assert BlockOk(h, a) && BlockOk(h, b);
    var v := b / 4096;
    if h.blocks[a].Large? {
      assert a / 4096 <= v < a / 4096 + h.blocks[a].pages ==> UsedBy(h, v, a);
      assert h.blocks[b].Large? ==> UsedBy(h, v, b);
    } else if a / 4096 == v {
      assert h.blocks[b].Large? ==> UsedBy(h, v, b);
      if !h.blocks[b].Large? { SlotsOrdered(h, a, b); }
    }
    hide Inv;
  }

  lemma SlotsOrdered(h: Heap, a: int, b: int)
    requires Inv(h) && a in h.blocks && b in h.blocks && a < b && a / 4096 == b / 4096
    requires !h.blocks[a].Large? && !h.blocks[b].Large?
    ensures h.blocks[a].pool < POOLS && a + MaxSize(h.blocks[a].pool) <= b
  {
    assert BlockOk(h, a) && BlockOk(h, b);
    var i, j, l := h.blocks[a].pool, h.blocks[a].slot, h.blocks[b].slot;
    assert h.blocks[b].pool == i;
    if l < j { ChunksApart(i, a / 4096, l, j); ChunksFillPage(i); }
    if j < l { ChunksApart(i, a / 4096, j, l); }
    hide Inv, MaxSize;
  }

  /** Free and live chunks of a pool make up its pages; the free list is as long as
      the chunks never handed out plus the ones given back, so a pool with `avail`
      chunks has a head to pop; and its pages are just as many as its allocations
      need, whatever was freed. */
  lemma PoolCounts(h: Heap, i: nat)
    requires Inv(h) && Settled(h) && i < POOLS
    ensures var t, k := h.tallies[i], ChunksPerPage(i);
            && |h.lists[i]| + |LiveChunks(h, i)| == k * t.pages
            && |h.lists[i]| == Avail(h, i) + t.frees
            && (Avail(h, i) > 0 ==> h.lists[i] != [])
            && (t.allocs > 0 ==> t.pages == (t.allocs + k - 1) / k)
            && (t.pages > 0 ==> t.pages == if t.allocs <= 1 then 1 else (t.allocs + k - 1) / k)
  {
    assert TallyOk(h, i);
    var t, k := h.tallies[i], ChunksPerPage(i);
    if t.allocs > 0 {
      Quotient(k, t.pages, t.allocs);
    }
    assert t.pages > 1 ==> k * t.pages >= k * 2;
    hide Inv;
  }

  lemma Quotient(k: int, p: int, n: int)
    requires k > 0 && k * p - k < n <= k * p
    ensures p == (n + k - 1) / k
  {
    var q := (n + k - 1) / k;
    assert n + k - 1 == k * q + (n + k - 1) % k;
    assert q < p ==> k * q <= k * (p - 1);
    assert q > p ==> k * q >= k * (p + 1);
  }

  /** kmalloc takes the least number of whole pages that holds a large request. */
  function LargePages(bytes: int): int {
    (bytes - 1) / 4096 + 1
  }

  lemma LargePagesLeast(bytes: int, n: int)
    requires bytes > 0
    ensures 4096 * LargePages(bytes) >= bytes
    ensures 4096 * n >= bytes ==> n >= LargePages(bytes)
  {
  }

  // ---- Runs --------------------------------------------------------------------

  // `page` is the page number that MMU_alloc_pages returns if the call asks for pages.
  datatype Step = Malloc(size: int, page: int) | Mfree(block: int)

  /** Pages that kmalloc(size) asks for. */
  function PagesWanted(h: Heap, size: int): nat
    requires |h.tallies| == POOLS && size > 0
  {
    var i := BestPool(size + HEADER);
    if i == POOLS then LargePages(size + HEADER) else if Avail(h, i) == 0 then 1 else 0
  }

  ghost predicate Enabled(h: Heap, step: Step)
    requires Inv(h)
  {
    match step
    case Malloc(size, page) => size > 0 && forall v :: page <= v < page + PagesWanted(h, size) ==> Unused(h, v)
    case Mfree(a) => a in h.blocks && !h.blocks[a].Free?
  }

  /** Address of the header that kmalloc(size) chooses. */
  ghost function Chosen(h: Heap, size: int, page: int): int
    requires Inv(h) && Enabled(h, Malloc(size, page))
  {
    var i := BestPool(size + HEADER);
    if i == POOLS || Avail(h, i) == 0 then 4096 * page
    else assert TallyOk(h, i); h.lists[i][0]
  }

  /** The pool after kmalloc made sure that it has a chunk. */
  ghost function Refilled(h: Heap, i: nat, page: int): Heap
    requires Inv(h) && i < POOLS && (Avail(h, i) == 0 ==> Unused(h, page))
  {
    if Avail(h, i) == 0 then AddPage(h, i, page) else h
  }

  lemma RefilledKeeps(h: Heap, i: nat, page: int)
    requires Inv(h) && i < POOLS && (Avail(h, i) == 0 ==> Unused(h, page))
    ensures var r := Refilled(h, i, page);
            && Inv(r) && Avail(r, i) > 0
            && (forall k :: 0 <= k < POOLS && k != i ==> r.tallies[k] == h.tallies[k])
            && r.tallies[i].allocs == h.tallies[i].allocs && r.tallies[i].frees == h.tallies[i].frees
            && r.lists[i] != [] && r.lists[i][0] in r.blocks && r.blocks[r.lists[i][0]].Free?
            && r.blocks[r.lists[i][0]].pool == i
            && r.lists[i][0] == (if Avail(h, i) == 0 then 4096 * page else h.lists[i][0])
  {
    assert TallyOk(h, i);
    ChunksFillPage(i);
    if Avail(h, i) == 0 {
      AddPageKeeps(h, i, page);
      AddPageAvail(h, i, page);
    }
    var r := Refilled(h, i, page);
    assert TallyOk(r, i) && ListOk(r, i, 0);
    hide Inv, TallyOk, MaxSize;
  }

  /** Heap after one call. */
  ghost function Do(h: Heap, step: Step): Heap
    requires Inv(h) && Enabled(h, step)
  {
    match step
    case Malloc(size, page) =>
      var i := BestPool(size + HEADER);
      if i == POOLS then AddLarge(h, page, LargePages(size + HEADER), size + HEADER)
      else
        assert Avail(h, i) == 0 ==> Unused(h, page);
        RefilledKeeps(h, i, page);
        PopChunk(Refilled(h, i, page), i, size + HEADER)
    case Mfree(a) =>
      assert BlockOk(h, a);
      if h.blocks[a].Large? then DropLarge(h, a) else PushChunk(h, a)
  }

  /** A freed chunk is the next one its pool hands out, if and only if the pool has a chunk
      that was never handed out: `avail` does not count freed chunks, so with none left
      kmalloc takes a new page, and its first chunk, instead. */
  lemma FreedChunkComesBack(h: Heap, a: int, size: int, page: int)
    requires Inv(h) && a in h.blocks && h.blocks[a].Live? && size > 0
    requires BestPool(size + HEADER) == h.blocks[a].pool && Unused(h, page)
    ensures h.blocks[a].pool < POOLS && |h.tallies| == POOLS
    ensures Inv(Do(h, Mfree(a))) && Enabled(Do(h, Mfree(a)), Malloc(size, page))
    ensures var c := Chosen(Do(h, Mfree(a)), size, page);
            && (c == a <==> Avail(h, h.blocks[a].pool) > 0)
            && (Avail(h, h.blocks[a].pool) == 0 ==> c == 4096 * page)
  {
    var i := h.blocks[a].pool;
    PushChunkKeeps(h, a);
    assert BlockOk(h, a) && TallyOk(h, i);
    UnusedIsEmpty(h, page);
    FrameAddress(page);
    var g := PushChunk(h, a);
    assert Avail(g, i) == Avail(h, i) && g.lists[i][0] == a;
    hide Inv, BestPool, Avail, MaxSize, LargePages;
  }

  /** Calls of kmalloc that a step makes to pool `i`. */
  function AllocsIn(step: Step, i: nat): nat {
    if step.Malloc? && BestPool(step.size + HEADER) == i then 1 else 0
  }

  lemma DoKeeps(h: Heap, step: Step)
    requires Inv(h) && Settled(h) && Enabled(h, step)
    ensures Inv(Do(h, step)) && Settled(Do(h, step))
    ensures forall i: nat :: i < POOLS ==> Do(h, step).tallies[i].allocs == h.tallies[i].allocs + AllocsIn(step, i)
    ensures forall i: nat :: i < POOLS ==> h.tallies[i].pages <= Do(h, step).tallies[i].pages
    ensures step.Malloc? ==> var c := Chosen(h, step.size, step.page); var g := Do(h, step);
              && c in g.blocks && !g.blocks[c].Free? && (c in h.blocks ==> h.blocks[c].Free?)
              && g.blocks[c].bytes == step.size + HEADER
              && (g.blocks[c].Large? <==> BestPool(step.size + HEADER) == POOLS)
              && (g.blocks[c].Live? ==> g.blocks[c].pool == BestPool(step.size + HEADER))
              && (g.blocks[c].Large? ==> g.blocks[c].pages == LargePages(step.size + HEADER))
  {
    match step
    case Malloc(size, page) =>
      MallocKeeps(h, size, page);
      hide Inv, Do, Chosen, BestPool, Enabled;
    case Mfree(a) =>
      assert BlockOk(h, a);
      if h.blocks[a].Large? { DropLargeKeeps(h, a); } else { PushChunkKeeps(h, a); }
      hide Inv;
  }

  /** What kmalloc(size) has done to the heap. */
  ghost predicate Served(h: Heap, g: Heap, size: int, page: int)
    requires Inv(h) && Enabled(h, Malloc(size, page))
  {
    && Inv(g) && Settled(g)
    && (forall i: nat :: i < POOLS ==> g.tallies[i].allocs == h.tallies[i].allocs + AllocsIn(Malloc(size, page), i))
    && (forall i: nat :: i < POOLS ==> h.tallies[i].pages <= g.tallies[i].pages)
    && var c := Chosen(h, size, page);
    && c in g.blocks && !g.blocks[c].Free? && (c in h.blocks ==> h.blocks[c].Free?)
    && g.blocks[c].bytes == size + HEADER
    && (g.blocks[c].Large? <==> BestPool(size + HEADER) == POOLS)
    && (g.blocks[c].Live? ==> g.blocks[c].pool == BestPool(size + HEADER))
    && (g.blocks[c].Large? ==> g.blocks[c].pages == LargePages(size + HEADER))
  }

  lemma MallocKeeps(h: Heap, size: int, page: int)
    requires Inv(h) && Settled(h) && Enabled(h, Malloc(size, page))
    ensures Served(h, Do(h, Malloc(size, page)), size, page)
  {
    if BestPool(size + HEADER) == POOLS { ServeLarge(h, size, page); } else { ServePooled(h, size, page); }
    hide Served, Inv, Enabled, Do;
  }

  lemma ServeLarge(h: Heap, size: int, page: int)
    requires Inv(h) && Settled(h) && Enabled(h, Malloc(size, page)) && BestPool(size + HEADER) == POOLS
    ensures Served(h, Do(h, Malloc(size, page)), size, page)
  {
    LargePagesLeast(size + HEADER, 0);
    AddLargeKeeps(h, page, LargePages(size + HEADER), size + HEADER);
    hide Inv, BestPool, LargePages, WithRun;
  }

  lemma ServePooled(h: Heap, size: int, page: int)
    requires Inv(h) && Settled(h) && Enabled(h, Malloc(size, page)) && BestPool(size + HEADER) < POOLS
    ensures Served(h, Do(h, Malloc(size, page)), size, page)
  {
    assert size > 0;
    hide Inv, Settled, Enabled, Do, Chosen, BestPool, Refilled, PopChunk, Avail, ChunksPerPage;
    var i := BestPool(size + HEADER);
    PooledPlan(h, size, page);
    PopServes(Refilled(h, i, page), i, size + HEADER);
  }

  /** The pooled path: refill if nothing is available, then pop. */
  lemma PooledPlan(h: Heap, size: int, page: int)
    requires Inv(h) && Settled(h) && Enabled(h, Malloc(size, page)) && BestPool(size + HEADER) < POOLS
    ensures |h.tallies| == POOLS
    ensures var i := BestPool(size + HEADER);
            && (Avail(h, i) == 0 ==> Unused(h, page))
            && var r := Refilled(h, i, page);
            && Inv(r) && |r.tallies| == POOLS && Avail(r, i) > 0
            && (forall k :: 0 <= k < POOLS && k != i && r.tallies[k].allocs > 0 ==> Avail(r, k) < ChunksPerPage(k))
            && r.lists[i] != [] && r.lists[i][0] in r.blocks && r.blocks[r.lists[i][0]].Free?
            && Do(h, Malloc(size, page)) == PopChunk(r, i, size + HEADER)
            && Chosen(h, size, page) == r.lists[i][0]
            && (r.lists[i][0] in h.blocks ==> h.blocks[r.lists[i][0]].Free?)
            && (forall k :: 0 <= k < POOLS && k != i ==> r.tallies[k] == h.tallies[k])
            && r.tallies[i].allocs == h.tallies[i].allocs && h.tallies[i].pages <= r.tallies[i].pages
  {
    var i := BestPool(size + HEADER);
    assert Avail(h, i) == 0 ==> Unused(h, page);
    assert Avail(h, i) != 0 ==> TallyOk(h, i) && ListOk(h, i, 0);
    if Avail(h, i) == 0 {
      UnusedIsEmpty(h, page);
      FreshAddress(h, page);
    }
    RefilledKeeps(h, i, page);
    RefilledPages(h, i, page);
    var r := Refilled(h, i, page);
    hide Inv, BestPool, Refilled, PopChunk, ChunksPerPage;
    assert forall k :: 0 <= k < POOLS && k != i ==> Avail(r, k) == Avail(h, k);
  }

  lemma RefilledPages(h: Heap, i: nat, page: int)
    requires Inv(h) && i < POOLS && (Avail(h, i) == 0 ==> Unused(h, page))
    ensures |Refilled(h, i, page).tallies| == POOLS && h.tallies[i].pages <= Refilled(h, i, page).tallies[i].pages
  {
  }

  lemma PopServes(r: Heap, i: nat, bytes: int)
    requires Inv(r) && i < POOLS && Avail(r, i) > 0 && HEADER < bytes && BestPool(bytes) == i
    requires forall k :: 0 <= k < POOLS && k != i && r.tallies[k].allocs > 0 ==> Avail(r, k) < ChunksPerPage(k)
    ensures r.lists[i] != [] && r.lists[i][0] in r.blocks && r.blocks[r.lists[i][0]].Free?
    ensures var g, c := PopChunk(r, i, bytes), r.lists[i][0];
            && Inv(g) && Settled(g)
            && g.tallies[i].allocs == r.tallies[i].allocs + 1 && g.tallies[i].pages == r.tallies[i].pages
            && (forall k :: 0 <= k < POOLS && k != i ==> g.tallies[k] == r.tallies[k])
            && c in g.blocks && g.blocks[c].Live? && g.blocks[c].pool == i && g.blocks[c].bytes == bytes
  {
    PopChunkKeeps(r, i, bytes);
    hide Inv, BestPool, ChunksPerPage;
  }

  lemma FreshAddress(h: Heap, page: int)
    requires forall a :: a in h.blocks ==> a / 4096 != page
    ensures 4096 * page !in h.blocks
  {
    FrameAddress(page);
  }

  ghost predicate Runs(h: Heap, steps: seq<Step>)
    requires Inv(h) && Settled(h)
    decreases |steps|
  {
    steps == [] || (Enabled(h, steps[0]) && (DoKeeps(h, steps[0]); Runs(Do(h, steps[0]), steps[1..])))
  }

  ghost function Run(h: Heap, steps: seq<Step>): Heap
    requires Inv(h) && Settled(h) && Runs(h, steps)
    decreases |steps|
  {
    if steps == [] then h else DoKeeps(h, steps[0]); Run(Do(h, steps[0]), steps[1..])
  }

  /** Calls of kmalloc that a run makes to pool `i`. */
  function AllocsOf(steps: seq<Step>, i: nat): nat
    decreases |steps|
  {
    if steps == [] then 0 else AllocsIn(steps[0], i) + AllocsOf(steps[1..], i)
  }

  lemma {:induction false} RunKeeps(h: Heap, steps: seq<Step>, i: nat)
    requires Inv(h) && Settled(h) && Runs(h, steps) && i < POOLS
    ensures Inv(Run(h, steps)) && Settled(Run(h, steps))
    ensures Run(h, steps).tallies[i].allocs == h.tallies[i].allocs + AllocsOf(steps, i)
    ensures h.tallies[i].pages <= Run(h, steps).tallies[i].pages
    decreases |steps|
  {
    hide Inv, Settled, Enabled, Do, Chosen, BestPool;
    if steps != [] {
      DoKeeps(h, steps[0]);
      RunKeeps(Do(h, steps[0]), steps[1..], i);
    }
  }

  /** Over any run of kmalloc and kfree from start-up, n calls that fall to a pool
      make it take exactly max(1, ceil(n / k)) pages: frees save nothing, because
      kfree does not add to `avail`. */
  lemma RunPageCount(h: Heap, steps: seq<Step>, i: nat)
    requires Inv(h) && Settled(h) && Runs(h, steps) && i < POOLS
    requires h.tallies[i] == Tally(1, 0, 0)
    ensures Inv(Run(h, steps))
    ensures var g, n, k := Run(h, steps), AllocsOf(steps, i), ChunksPerPage(i);
            && g.tallies[i].pages == (if n <= 1 then 1 else (n + k - 1) / k)
            && |g.lists[i]| + |LiveChunks(g, i)| == k * g.tallies[i].pages
            && |g.lists[i]| == Avail(g, i) + g.tallies[i].frees
  {
    hide Inv, Settled, Run, Runs, LiveChunks, Avail, ChunksPerPage, AllocsOf;
    RunKeeps(h, steps, i);
    PoolCounts(Run(h, steps), i);
  }
}
