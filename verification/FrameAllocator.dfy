/** pf_alloc.c: frames are handed out from the ring in memory, which is refilled
    from the unpooled range recorded in frame 0. */
module FrameAllocation {
  import opened MachineWords
  import opened PhysicalMemory
  import opened FramePool
  import opened FrameRing

  /** Ring and head record in memory describe `pool`. */
  ghost predicate PoolInMemory(m: Memory, pool: Pool) {
    && Linked(m, [0] + pool.stack)
    && WellFormed(pool)
    && pool.base + pool.unpooled <= |m|
    && m[0][2] == 4096 * pool.base
    && m[0][3] == 4096 * pool.unpooled
    && m[0][4] == pool.unpooled
  }

  /** The allocator writes only frame 0 and frames it owns. */
  ghost predicate OnlyPoolTouched(m: Memory, m': Memory, pool: Pool) {
    |m'| == |m| && forall g :: 0 < g < |m| && !Owns(pool, g) ==> m'[g] == m[g]
  }

  lemma AllocStep(m: Memory, m': Memory, p: Pool)
    requires PoolInMemory(m, p) && |p.stack| > 1
    requires Linked(m', [0] + Pop(p).rest.stack)
    requires OnlyLinksDiffer(m, m', [0] + Pop(p).rest.stack)
    ensures PoolInMemory(m', Pop(p).rest)
    ensures OnlyPoolTouched(m, m', p)
  {
    PopConserves(p);
  }

  lemma FreeStep(m: Memory, m': Memory, p: Pool, f: int)
    requires PoolInMemory(m, p) && 0 < f < |m| && !Owns(p, f)
    requires Linked(m', [0] + Free(p, f).stack)
    requires OnlyLinksDiffer(m, m', [0] + Free(p, f).stack)
    ensures PoolInMemory(m', Free(p, f))
    ensures OnlyPoolTouched(m, m', Free(p, f))
  {
    FreeConserves(p, f);
  }

  /** State of add_new_upper_pages after `i` rounds: the ring and base_addr have
      moved on, length and unpooled_page_cnt have not. */
  ghost predicate Pooling(m: Memory, m': Memory, p: Pool, i: nat)
    requires |m| > 0 && i <= p.unpooled
  {
    && Linked(m', [0] + Grow(p, i).stack)
    && OnlyPoolTouched(m, m', p)
    && m'[0][2] == 4096 * (p.base + i)
    && m'[0][3] == m[0][3] && m'[0][4] == m[0][4]
  }

  lemma GrowZero(p: Pool)
    ensures Grow(p, 0) == p
  {
    assert p.stack + Run(p.base, 0) == p.stack;
  }

  /** The next unpooled frame is not in the ring yet. */
  lemma NextUnpooled(p: Pool, i: nat)
    requires WellFormed(p) && i < p.unpooled
    ensures p.base + i !in [0] + Grow(p, i).stack && Unpooled(p, p.base + i)
    ensures [0] + Grow(p, i).stack + [p.base + i] == [0] + Grow(p, i + 1).stack
  {
    GrowKeepsFrames(p, i);
    assert Unpooled(Grow(p, i), p.base + i);
    assert Run(p.base, i + 1) == Run(p.base, i) + [p.base + i];
  }

  lemma PoolingStep(m: Memory, a: Memory, b: Memory, c: Memory, p: Pool, i: nat)
    requires PoolInMemory(m, p) && i < p.unpooled
    requires Pooling(m, a, p, i)
    requires Linked(b, [0] + Grow(p, i + 1).stack)
    requires OnlyLinksDiffer(a, b, [0] + Grow(p, i + 1).stack)
    requires c == Put(b, 0, 2, 4096 * (p.base + i + 1))
    ensures Pooling(m, c, p, i + 1)
  {
    InfoKeepsRing(b, c, [0] + Grow(p, i + 1).stack);
    GrowKeepsFrames(p, i + 1);
  }

  /** State of add_lower_pages after `cnt` of the frames 1 .. n - 1. */
  ghost predicate LowerPooled(m: Memory, m': Memory, cnt: nat, n: int) {
    && Linked(m', [0] + Run(1, cnt))
    && |m'| == |m|
    && (forall g :: 0 < g < |m| && !(1 <= g < n) ==> m'[g] == m[g])
    && forall g, i :: 0 <= g < |m| && 2 <= i < 512 ==> m'[g][i] == m[g][i]
  }

  lemma LowerStep(m: Memory, a: Memory, b: Memory, cnt: nat, n: int)
    requires LowerPooled(m, a, cnt, n) && cnt + 1 < n
    requires Linked(b, [0] + Run(1, cnt + 1))
    requires OnlyLinksDiffer(a, b, [0] + Run(1, cnt + 1))
    ensures LowerPooled(m, b, cnt + 1, n)
  {
  }

  lemma NextLower(cnt: nat)
    ensures cnt + 1 !in [0] + Run(1, cnt)
    ensures [0] + Run(1, cnt) + [cnt + 1] == [0] + Run(1, cnt + 1)
  {
  }

  lemma LowerDone(a: Memory, b: Memory, p: Pool, n: int)
    requires 1 <= n && p.stack == Run(1, n - 1)
    requires Linked(a, [0] + Run(1, n - 1))
    requires n <= p.base && p.base + p.unpooled <= |a|
    requires b == Put(Put(Put(a, 0, 2, 4096 * p.base), 0, 3, 4096 * p.unpooled), 0, 4, p.unpooled)
    ensures PoolInMemory(b, p)
  {
    InfoKeepsRing(a, b, [0] + p.stack);
    forall g | 1 <= g < n ensures Owns(p, g) {
      assert p.stack[g - 1] == g;
    }
  }

  /** add_lower_pages: every frame of the lower region but the first joins the ring. */
  method AddLowerPages(ram: Ram, lowerLength: u64)
    requires Linked(ram.frames, [0])
    requires lowerLength % 4096 == 0 && 4096 <= lowerLength <= 4096 * |ram.frames|
    modifies ram
    ensures LowerPooled(old(ram.frames), ram.frames, lowerLength / 4096 - 1, lowerLength / 4096)
  {
    ghost var m, n := ram.frames, lowerLength / 4096;
    var curr: u64 := 4096;
    var cnt := 0;
    assert [0] + Run(1, 0) == [0];
    while curr < lowerLength
      invariant curr == 4096 * (cnt + 1) && 0 <= cnt < n
      invariant LowerPooled(m, ram.frames, cnt, n)
    {
      ghost var before := ram.frames;
      NextLower(cnt);
      AddElem(ram, 0, curr, [0] + Run(1, cnt));
      LowerStep(m, before, ram.frames, cnt, n);
      curr := curr + 4096;
      cnt := cnt + 1;
    }
    assert curr == lowerLength && cnt == lowerLength / 4096 - 1;
  }

  lemma LowerFrom(m: Memory, a: Memory, b: Memory, n: int)
    requires 1 <= n && LowerPooled(a, b, n - 1, n) && |a| == |m|
    requires forall g :: 0 < g < |m| ==> a[g] == m[g]
    requires forall i :: 2 <= i < 512 ==> a[0][i] == m[0][i]
    ensures LowerPooled(m, b, n - 1, n)
  {
  }

  /** init_ll_head and add_lower_pages: the ring of the lower region, from nothing. */
  method PoolLower(ram: Ram, lowerLength: u64)
    requires |ram.frames| <= MAX_FRAMES
    requires lowerLength % 4096 == 0 && 4096 <= lowerLength <= 4096 * |ram.frames|
    modifies ram
    ensures LowerPooled(old(ram.frames), ram.frames, lowerLength / 4096 - 1, lowerLength / 4096)
  {
    ghost var m := ram.frames;
    ram.Set(0, 0, 0);
    ram.Set(0, 1, 0);
    ghost var empty := ram.frames;
    AddLowerPages(ram, lowerLength);
    LowerFrom(m, empty, ram.frames, lowerLength / 4096);
  }

  class FrameAllocator {
    const ram: Ram
    ghost var pool: Pool

    ghost predicate Valid()
      reads this, ram
    {
      PoolInMemory(ram.frames, pool)
    }

    /** The record of init_ll_head_info beside a ring of the lower region, for whole
        upper frames from `upperBase`. */
    constructor (ram: Ram, lowerLength: u64, upperBase: u64, upperLength: u64)
      requires lowerLength % 4096 == 0 && upperBase % 4096 == 0 && upperLength % 4096 == 0
      requires 4096 <= lowerLength <= upperBase
      requires upperBase + upperLength <= 4096 * |ram.frames|
      requires Linked(ram.frames, [0] + Run(1, lowerLength / 4096 - 1))
      modifies ram
      ensures Valid() && this.ram == ram
      ensures pool == Pool(Run(1, lowerLength / 4096 - 1), upperBase / 4096, upperLength / 4096)
      ensures |old(ram.frames)| > 0
      ensures ram.frames == Put(Put(Put(old(ram.frames), 0, 2, upperBase), 0, 3, upperLength), 0, 4, upperLength / 4096)
    {
      this.ram := ram;
      pool := Pool(Run(1, lowerLength / 4096 - 1), upperBase / 4096, upperLength / 4096);
      new;
      ghost var linked, n := ram.frames, lowerLength / 4096;
      ram.Set(0, 2, upperBase);
      ram.Set(0, 3, upperLength);
      ram.Set(0, 4, upperLength / 4096);
      LowerDone(linked, ram.frames, pool, n);
    }

    /** MMU_pf_alloc */
    method Alloc() returns (pf: u64)
      requires Valid() && FramePool.Alloc(pool) != Halt
      modifies this, ram
      ensures Valid()
      ensures match FramePool.Alloc(old(pool))
              case Taken(f, rest) => pf == 4096 * f && pool == rest
              case _ => pf == 0 && pool == old(pool)
      ensures OnlyPoolTouched(old(ram.frames), ram.frames, old(pool))
    {
      ghost var p := pool;
      var empty := IsEmpty(ram, 0, [0] + pool.stack);
      if empty {
        var unpooled := ram.Get(0, 4);
        if unpooled == 0 {
          return 0;
        }
        var pagesToAdd := if 500 > unpooled then unpooled else 500;
        AddNewUpperPages(pagesToAdd);
        GrowKeepsFrames(p, GrowCount(p));
      }
      ghost var g, c, m := pool, [0] + pool.stack, ram.frames;
      pf := PopElem(ram, 0, c);
      assert c[..|c| - 1] == [0] + Pop(g).rest.stack;
      AllocStep(m, ram.frames, g);
      pool := Pop(g).rest;
    }

    /** MMU_pf_free.  The caller hands back a frame that is not pooled. */
    method Free(pf: u64)
      requires Valid()
      requires pf % 4096 == 0 && 0 < pf / 4096 < |ram.frames| && !Owns(pool, pf / 4096)
      modifies this, ram
      ensures Valid()
      ensures pool == FramePool.Free(old(pool), pf / 4096)
      ensures OnlyPoolTouched(old(ram.frames), ram.frames, pool)
    {
      ghost var p, m := pool, ram.frames;
      assert [0] + p.stack + [pf / 4096] == [0] + FramePool.Free(p, pf / 4096).stack;
      AddElem(ram, 0, pf, [0] + p.stack);
      FreeStep(m, ram.frames, p, pf / 4096);
      pool := FramePool.Free(p, pf / 4096);
    }

    /** add_new_upper_pages.  The limit of the managed memory stays put. */
    method AddNewUpperPages(numNewPages: u64)
      requires Valid() && 0 < numNewPages <= pool.unpooled
      modifies this, ram
      ensures Valid()
      ensures pool == Grow(old(pool), numNewPages)
      ensures OnlyPoolTouched(old(ram.frames), ram.frames, old(pool))
    {
      ghost var p, m := pool, ram.frames;
      var i := 0;
      GrowZero(p);
      while i < numNewPages
        invariant 0 <= i <= numNewPages
        invariant Pooling(m, ram.frames, p, i)
        invariant pool == p
      {
        ghost var before := ram.frames;
        var newElem := ram.Get(0, 2);
        NextUnpooled(p, i);
        AddElem(ram, 0, newElem, [0] + Grow(p, i).stack);
        ghost var linked := ram.frames;
        var base := ram.Get(0, 2);
        ram.Set(0, 2, base + 4096);
        PoolingStep(m, before, linked, ram.frames, p, i);
        i := i + 1;
      }
      ghost var linked := ram.frames;
      var length := ram.Get(0, 3);
      ram.Set(0, 3, length - numNewPages * 4096);
      var count := ram.Get(0, 4);
      ram.Set(0, 4, count - numNewPages);
      InfoKeepsRing(linked, ram.frames, [0] + Grow(p, i).stack);
      GrowKeepsFrames(p, numNewPages);
      pool := Grow(p, numNewPages);
    }
  }

  /** Words 2, 3 and 4 of frame 0 are not links. */
  lemma InfoKeepsRing(m: Memory, m': Memory, c: seq<int>)
    requires Linked(m, c)
    requires |m'| == |m| && m'[0][0] == m[0][0] && m'[0][1] == m[0][1]
    requires forall g :: 0 < g < |m| ==> m'[g] == m[g]
    ensures Linked(m', c)
  {
    forall i | 0 <= i < |c|
      ensures LinkAt(m', c, i)
    {
      assert LinkAt(m, c, i);
    }
  }
}
