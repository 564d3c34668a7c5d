/** The memory part of kernel_main: frames, then pages, then the kernel heap. */
module Startup {
  import opened MachineWords
  import FramePool
  import MemoryState
  import HeapBlocks
  import opened PhysicalMemory
  import opened FrameAllocation
  import opened BootInformation
  import opened VirtualPages
  import MemoryRuns
  import opened KernelHeap

  /** Twelve frames to take, with one that is never handed out. */
  ghost predicate EnoughFrames(b: seq<u8>, mmap: nat, elf: nat, lo: nat, up: nat) {
    var last, upper := SectionAt(b, elf, if Le32(b, elf + 8) > 0 then Le32(b, elf + 8) - 1 else 0),
        RegionAt(b, mmap, up);
    var pooled := RoundDown(RegionAt(b, mmap, lo).length, 4096) / 4096 - 1;
    var unpooled := (RoundDown(upper.base + upper.length, 4096) - RoundUp(last.addr + last.size, 4096)) / 4096;
    pooled + unpooled - 1 >= 12
  }

  lemma Enough(b: seq<u8>, mmap: nat, elf: nat, lo: nat, up: nat)
    requires RoundDown(RegionAt(b, mmap, lo).length, 4096) >= 4096 && Le32(b, elf + 8) >= 2
    requires var last, upper := SectionAt(b, elf, Le32(b, elf + 8) - 1), RegionAt(b, mmap, up);
             RoundUp(last.addr + last.size, 4096) <= RoundDown(upper.base + upper.length, 4096)
    requires EnoughFrames(b, mmap, elf, lo, up)
    ensures var p := StartPool(b, mmap, elf, lo, up); FramePool.Available(p) >= 12
  {
    hide RoundUp, RoundDown, Le32, Le64;
  }

  lemma PoolWellFormed(pf: FrameAllocator)
    requires pf.Valid()
    ensures FramePool.WellFormed(pf.pool)
  {
  }

  /** After MMU_init_vp there is room for one page per pool. */
  lemma RoomAtStart(p: FramePool.Pool)
    requires FramePool.WellFormed(p) && FramePool.Available(p) >= 12
    ensures RoomForPools(MemoryState.Boot(p), HeapBlocks.POOLS)
  {
    hide MemoryState.Boot, MemoryState.Inv, MemoryState.TableCount, FramePool.WellFormed, FramePool.Available;
    MemoryState.BootInv(p);
    MemoryRuns.BootTop(p);
    FirstTables();
  }

  /** The first seven heap pages need one table of each level below the root. */
  lemma FirstTables()
    ensures MemoryState.TableCount(0) == 0 && MemoryState.TableCount(7) == 3
  {
    hide MemoryState.NewTables;
    MemoryRuns.TableCountClosed(7);
  }

  /** The frames that start-up puts under management: frame 0, the whole frames of the
      lower region and those above the last ELF section. */
  ghost predicate Managed(b: seq<u8>, mmap: nat, elf: nat, lo: nat, up: nat, f: int)
    requires Le32(b, elf + 8) >= 2
  {
    var last, upper := SectionAt(b, elf, Le32(b, elf + 8) - 1), RegionAt(b, mmap, up);
    || f == 0
    || (0 < f && 4096 * (f + 1) <= RegionAt(b, mmap, lo).length)
    || (last.addr + last.size <= 4096 * f && 4096 * (f + 1) <= upper.base + upper.length)
  }

  lemma BootManages(p: FramePool.Pool)
    requires FramePool.WellFormed(p) && FramePool.Available(p) >= 2
    ensures MemoryState.Boot(p).top == MemoryState.HEAP_BASE
    ensures forall f :: f in MemoryState.Boot(p).own <==> f == 0 || f in p.stack || FramePool.Unpooled(p, f)
  {
    hide MemoryState.Inv, MemoryState.Ledger, MemoryState.Boot, FramePool.WellFormed;
    MemoryState.BootInv(p);
    MemoryState.FreshOwned(p);
    MemoryRuns.BootTop(p);
    assert forall f :: f in MemoryState.Boot(p).own <==> f in MemoryState.Fresh(p).own by {
      assert MemoryState.Boot(p).own.Keys == MemoryState.Fresh(p).own.Keys;
    }
  }

  /** With twelve frames to take, wherever they lie, start-up passes every assert and
      leaves a working heap: two fixed tables, three tables for the first heap pages and
      one page for each of the seven pools, out of exactly the managed frames. */
  method StartMemory(ram: Ram, info: int, len: nat, poolArr: u64,
                     ghost mmap: nat, ghost elf: nat, ghost lo: nat, ghost up: nat)
    returns (heap: Kmalloc)
    requires Bootable(BytesAt(ram.frames, info, len), ram.frames, mmap, elf, lo, up)
    requires EnoughFrames(BytesAt(ram.frames, info, len), mmap, elf, lo, up)
    requires Spared(info, len, RegionAt(BytesAt(ram.frames, info, len), mmap, lo).length / 4096)
    requires 0 < poolArr && poolArr + 24 * HeapBlocks.POOLS < 0x1_0000_0000_0000_0000
    modifies ram
    ensures fresh(heap) && heap.Valid() && heap.mmu.ram == ram
    ensures forall i: nat :: i < HeapBlocks.POOLS ==> heap.h.tallies[i] == HeapBlocks.Tally(1, 0, 0)
    ensures heap.mmu.st.top == MemoryState.HEAP_BASE + HeapBlocks.POOLS && |heap.mmu.st.tables| == 5
    ensures var b := BytesAt(old(ram.frames), info, len);
            Le32(b, elf + 8) >= 2 && forall f :: f in heap.mmu.st.own <==> Managed(b, mmap, elf, lo, up, f)
  {
    assert HeapBlocks.POOLS == 7;
    hide *;
    ghost var b := BytesAt(ram.frames, info, len);
    var pf, _ := InitFrames(ram, info, len, mmap, elf, lo, up);
    StartsMeans(b, mmap, elf, lo, up, pf.pool);
    Enough(b, mmap, elf, lo, up);
    ghost var p := pf.pool;
    PoolWellFormed(pf);
    var mmu := new Mmu(ram, pf);
    RoomAtStart(p);
    BootManages(p);
    ManagedIs(b, mmap, elf, lo, up, p);
    ghost var s := mmu.st;
    heap := new Kmalloc(mmu, poolArr);
    ghost var t := heap.mmu.st;
    assert forall f :: f in t.own <==> f in s.own by { assert t.own.Keys == s.own.Keys; }
    heap.ValidParts();
    heap.Parts();
    heap.mmu.HeapPages();
    FirstTables();
    MemoryRuns.TablesCounted(t);
  }

  lemma StartsMeans(b: seq<u8>, mmap: nat, elf: nat, lo: nat, up: nat, p: FramePool.Pool)
    requires Leaves(b, mmap, elf, lo, up, p) && PoolsExactly(b, mmap, elf, lo, up, p)
    ensures RoundDown(RegionAt(b, mmap, lo).length, 4096) >= 4096 && Le32(b, elf + 8) >= 2
    ensures forall f :: f in p.stack <==> 0 < f && 4096 * (f + 1) <= RegionAt(b, mmap, lo).length
    ensures var last, upper := SectionAt(b, elf, Le32(b, elf + 8) - 1), RegionAt(b, mmap, up);
            && RoundUp(last.addr + last.size, 4096) <= RoundDown(upper.base + upper.length, 4096)
            && forall f :: FramePool.Unpooled(p, f) <==>
                             last.addr + last.size <= 4096 * f && 4096 * (f + 1) <= upper.base + upper.length
    ensures StartPool(b, mmap, elf, lo, up) == p
  {
    hide Le32, RegionAt, SectionAt, FramePool.Unpooled, RoundUp, RoundDown, StartPool;
  }

  lemma ManagedIs(b: seq<u8>, mmap: nat, elf: nat, lo: nat, up: nat, p: FramePool.Pool)
    requires Le32(b, elf + 8) >= 2
    requires forall f :: f in p.stack <==> 0 < f && 4096 * (f + 1) <= RegionAt(b, mmap, lo).length
    requires var last, upper := SectionAt(b, elf, Le32(b, elf + 8) - 1), RegionAt(b, mmap, up);
             forall f :: FramePool.Unpooled(p, f) <==>
                           last.addr + last.size <= 4096 * f && 4096 * (f + 1) <= upper.base + upper.length
    ensures forall f :: Managed(b, mmap, elf, lo, up, f) <==> f == 0 || f in p.stack || FramePool.Unpooled(p, f)
  {
    hide Le32, RegionAt, SectionAt, FramePool.Unpooled;
  }
}
