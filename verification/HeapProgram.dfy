/** The machine carries out the runs of HeapRuns. */
module HeapProgram {
  import opened MachineWords
  import MemoryLayout
  import MemoryState
  import MemoryRuns
  import HeapBlocks
  import opened HeapMemory
  import opened KernelHeap
  import opened HeapRuns
  import MemoryProgram

  ghost function WorldOf(k: Kmalloc): World
    reads k, k.mmu
  {
    World(k.h, k.mmu.st)
  }

  lemma WorldIsOk(k: Kmalloc)
    requires k.Valid()
    ensures WorldOk(WorldOf(k)) && k.mmu.Valid() && k.Ready()
  {
    hide HeapBlocks.Inv, HeapBlocks.Settled, MemoryState.Inv, InMemory;
    k.ValidParts();
    k.Parts();
    k.mmu.HeapPages();
  }

  /** The word at `va` is payload of block `b` and backed by a frame. */
  ghost predicate Holds(h: HeapBlocks.Heap, vm: VMem, b: int, va: int) {
    InPayload(h, b, va) && va / 4096 in vm
  }

  /** Every payload word of blocks not freed by `e` is there and is what `e` makes of it. */
  ghost predicate PayloadsFollow(h: HeapBlocks.Heap, h': HeapBlocks.Heap, vm: VMem, vm': VMem, e: Event) {
    forall b, va :: Holds(h, vm, b, va) && e != Mfree(b) ==>
      Holds(h', vm', b, va) && VWord(vm', va) == Stored(e, va, VWord(vm, va))
  }

  // ---- Payloads through one event ----------------------------------------------

  lemma MallocFollows(w: World, size: u64, vm: VMem, vm': VMem)
    requires WorldOk(w) && Enabled(w, Malloc(size))
    requires HeapBlocks.Enabled(w.h, HeapBlocks.Malloc(size, w.s.top))
    requires KeptBut(vm, vm', HeapBlocks.Chosen(w.h, size, w.s.top))
    ensures PayloadsFollow(w.h, Do(w, Malloc(size)).h, vm, vm', Malloc(size))
  {
    hide HeapBlocks.Inv, HeapBlocks.Settled, MemoryState.Inv, HeapBlocks.Do, HeapBlocks.Chosen, MemoryRuns.Run,
         StepsOf, VWord, HeapBlocks.Extent, KeptBut, PagesCover, HeapBlocks.PagesWanted;
    var e := Malloc(size);
    DoKeeps(w, e);
    StatesOk(Do(w, e));
    HeapBlocks.DoKeeps(w.h, HeapBlocks.Malloc(size, w.s.top));
    var c := HeapBlocks.Chosen(w.h, size, w.s.top);
    forall b, va | Holds(w.h, vm, b, va) && e != Mfree(b)
      ensures Holds(Do(w, e).h, vm', b, va) && VWord(vm', va) == VWord(vm, va)
    {
      LiveStays(w, e, b);
      PayloadAfterHeader(w.h, b, va);
      PayloadsSurvive(vm, vm', Do(w, e).h, c, b, va);
    }
  }

  lemma PayloadAfterHeader(h: HeapBlocks.Heap, b: int, va: int)
    requires HeapBlocks.Inv(h) && InPayload(h, b, va)
    ensures b + HeapBlocks.HEADER <= va && va % 8 == 0 && va / 4096 in h.uses
  {
    hide HeapBlocks.Inv, HeapBlocks.Extent;
    HeaderAligned(h, b);
    PastHeader(b, va);
    PayloadPage(h, b, va);
  }

  lemma PushFollows(w: World, a: int, vm: VMem, vm': VMem)
    requires WorldOk(w) && Enabled(w, Mfree(a)) && w.h.blocks[a].Live?
    requires KeptBut(vm, vm', a)
    ensures PayloadsFollow(w.h, Do(w, Mfree(a)).h, vm, vm', Mfree(a))
  {
    hide HeapBlocks.Inv, HeapBlocks.Settled, MemoryState.Inv, HeapBlocks.Do, MemoryRuns.Run, StepsOf, VWord,
         HeapBlocks.Extent, KeptBut, PagesCover;
    var e := Mfree(a);
    forall b, va | Holds(w.h, vm, b, va) && e != Mfree(b)
      ensures Holds(Do(w, e).h, vm', b, va) && VWord(vm', va) == VWord(vm, va)
    {
      LiveStays(w, e, b);
      PayloadAfterHeader(w.h, b, va);
      PayloadsSurvive(vm, vm', w.h, a, b, va);
    }
  }

  lemma DropFollows(w: World, a: int, t: MemoryState.State, vm: VMem, vm': VMem)
    requires WorldOk(w) && Enabled(w, Mfree(a)) && w.h.blocks[a].Large?
    requires OnlyRunGone(w.s, t, vm, vm', a / 4096, w.h.blocks[a].pages)
    ensures PayloadsFollow(w.h, Do(w, Mfree(a)).h, vm, vm', Mfree(a))
  {
    hide HeapBlocks.Inv, HeapBlocks.Settled, MemoryState.Inv, HeapBlocks.Do, MemoryRuns.Run, StepsOf,
         HeapBlocks.Extent;
    var e := Mfree(a);
    forall b, va | Holds(w.h, vm, b, va) && e != Mfree(b)
      ensures Holds(Do(w, e).h, vm', b, va) && VWord(vm', va) == VWord(vm, va)
    {
      LiveStays(w, e, b);
      PayloadAfterHeader(w.h, b, va);
      OutsideRun(w.h, a, b, va);
    }
  }

  /** The payload of another block lies outside a large block's pages. */
  lemma OutsideRun(h: HeapBlocks.Heap, a: int, b: int, va: int)
    requires HeapBlocks.Inv(h) && a in h.blocks && h.blocks[a].Large? && a != b && InPayload(h, b, va)
    ensures !(a / 4096 <= va / 4096 < a / 4096 + h.blocks[a].pages)
  {
    PayloadAfterHeader(h, b, va);
    HeapBlocks.BlockExtent(h, a);
    hide HeapBlocks.Inv;
    if a < b {
      HeapBlocks.BlocksApart(h, a, b);
      assert a + 4096 * h.blocks[a].pages <= va;
    } else {
      HeapBlocks.BlocksApart(h, b, a);
      assert va < a;
    }
  }

  lemma PayloadFollows(w: World, block: int, wd: u64, x: u64, vm: VMem, vm': VMem)
    requires WorldOk(w) && Enabled(w, Payload(block, wd, x))
    requires Wrote(vm, vm', wd, x)
    ensures PayloadsFollow(w.h, w.h, vm, vm', Payload(block, wd, x))
  {
    hide VWord, HeapBlocks.Extent;
  }

  lemma OtherFollows(w: World, step: MemoryRuns.Step, vm: VMem, vm': VMem)
    requires WorldOk(w) && Enabled(w, Other(step))
    requires forall v :: v in w.h.uses && v in vm ==> v in vm' && vm'[v] == vm[v]
    ensures PayloadsFollow(w.h, w.h, vm, vm', Other(step))
  {
    hide HeapBlocks.Inv, HeapBlocks.Extent;
    forall b, va | Holds(w.h, vm, b, va)
      ensures Holds(w.h, vm', b, va) && VWord(vm', va) == VWord(vm, va)
    {
      PayloadAfterHeader(w.h, b, va);
    }
  }

  // ---- The machine -------------------------------------------------------------

  /** An address inside the heap fits a register. */
  lemma BlockAddress(h: HeapBlocks.Heap, s: MemoryState.State, b: int)
    requires HeapBlocks.Inv(h) && MemoryState.Inv(s) && PagesCover(h, s) && b in h.blocks
    ensures 0 <= b && b + 16 < 0x1_0000_0000_0000_0000
  {
    HeapBlocks.BlockExtent(h, b);
    MemoryState.TouchRange(s, b / 4096);
    hide HeapBlocks.Inv, MemoryState.Inv;
  }

  lemma DoMalloc(w: World, size: u64)
    requires WorldOk(w) && Enabled(w, Malloc(size))
    ensures HeapBlocks.Enabled(w.h, HeapBlocks.Malloc(size, w.s.top)) && |w.h.tallies| == HeapBlocks.POOLS
    ensures HeapBlocks.PagesWanted(w.h, size) > 0 ==> Room(w.s, HeapBlocks.PagesWanted(w.h, size))
    ensures Do(w, Malloc(size)) ==
              World(HeapBlocks.Do(w.h, HeapBlocks.Malloc(size, w.s.top)),
                  TakePages(w.s, HeapBlocks.PagesWanted(w.h, size)))
  {
    hide HeapBlocks.Inv, HeapBlocks.Settled, MemoryState.Inv, HeapBlocks.Do, HeapBlocks.PagesWanted,
         MemoryRuns.Run, MemoryRuns.Runs, PagesCover, HeapBlocks.Enabled, Room;
    CallReady(w, Malloc(size));
    StepsRun(w, Malloc(size));
    var n := HeapBlocks.PagesWanted(w.h, size);
    TakeNone(w.s);
    NoSteps(w.s);
    if n > 0 { TakeIsRun(w.s, n); }
  }

  lemma DoMfree(w: World, a: int)
    requires WorldOk(w) && Enabled(w, Mfree(a))
    ensures HeapBlocks.Enabled(w.h, HeapBlocks.Mfree(a))
    ensures Do(w, Mfree(a)).h == HeapBlocks.Do(w.h, HeapBlocks.Mfree(a))
    ensures w.h.blocks[a].Live? ==> Do(w, Mfree(a)).s == w.s
    ensures w.h.blocks[a].Large? ==>
              && (forall v :: a / 4096 <= v < a / 4096 + w.h.blocks[a].pages ==> v in w.s.pages)
              && Do(w, Mfree(a)).s == MemoryState.ReleasePages(w.s, a / 4096, w.h.blocks[a].pages)
  {
    hide HeapBlocks.Inv, HeapBlocks.Settled, MemoryState.Inv, HeapBlocks.Do, MemoryRuns.Run, MemoryRuns.Runs,
         PagesCover, MemoryState.ReleasePages;
    CallReady(w, Mfree(a));
    StepsRun(w, Mfree(a));
    NoSteps(w.s);
    if w.h.blocks[a].Large? {
      LargeRun(w.h, w.s, a);
      OneStep(w.s, MemoryRuns.Release(a / 4096, w.h.blocks[a].pages));
    }
  }

  lemma DoStep(w: World, e: Event, step: MemoryRuns.Step)
    requires WorldOk(w) && Enabled(w, e)
    requires e == Other(step) || (e.Payload? && step == MemoryRuns.Store(e.va, e.word))
    ensures MemoryRuns.Enabled(w.s, step) && Do(w, e) == World(w.h, MemoryRuns.Do(w.s, step))
  {
    hide HeapBlocks.Inv, HeapBlocks.Settled, MemoryState.Inv, MemoryRuns.Run, MemoryRuns.Runs, MemoryRuns.Do,
         MemoryRuns.Enabled, PagesCover;
    StepsRun(w, e);
    OneStep(w.s, step);
  }

  /** Any step of another client, carried out while kmalloc holds data: kmalloc's state
      stays valid and the same, and so does every word in its pages. */
  method PerformOther(k: Kmalloc, step: MemoryRuns.Step)
    requires k.Valid() && WorldOk(WorldOf(k)) && Enabled(WorldOf(k), Other(step))
    modifies k.mmu, k.mmu.ram, k.mmu.pf
    ensures k.Valid() && k.h == old(k.h) && k.pools == old(k.pools)
    ensures MemoryState.Inv(old(k.mmu.st)) && MemoryRuns.Enabled(old(k.mmu.st), step)
    ensures k.mmu.st == MemoryRuns.Do(old(k.mmu.st), step)
    ensures forall v :: v in k.h.uses && v in old(k.mmu.Heap()) ==>
              v in k.mmu.Heap() && k.mmu.Heap()[v] == old(k.mmu.Heap())[v]
    ensures MemoryProgram.HeldFollow(old(k.mmu.ram.frames), k.mmu.ram.frames, old(k.mmu.st), k.mmu.st, step)
  {
    ghost var w, vm := WorldOf(k), k.mmu.Heap();
    WorldIsOk(k);
    DoStep(w, Other(step), step);
    StepCovers(w, step);
    OneStep(w.s, step);
    hide *;
    k.ValidParts();
    k.Parts();
    MemoryProgram.Perform(k.mmu, step);
    OffHeapKept(w, step, vm, k.mmu.Heap());
    UsesKept(vm, k.mmu.Heap(), k.h, k.pools, k.poolArr);
    k.Whole();
    k.ValidWhole();
  }

  lemma OffHeapKept(w: World, step: MemoryRuns.Step, vm: VMem, vm': VMem)
    requires WorldOk(w) && Enabled(w, Other(step))
    requires forall v :: v in vm && !MemoryRuns.Ends(step, MemoryRuns.InPage(v)) ==>
               v in vm' && vm'[v] == MemoryRuns.Stored(step, MemoryRuns.InPage(v), vm[v])
    ensures forall v :: v in w.h.uses && v in vm ==> v in vm' && vm'[v] == vm[v]
  {
    hide HeapBlocks.Inv, MemoryState.Inv;
  }

  /** One event on the machine is the event on the state, and payloads follow it. */
  method PerformEvent(k: Kmalloc, e: Event)
    requires k.Valid() && WorldOk(WorldOf(k)) && Enabled(WorldOf(k), e)
    modifies k, k.mmu, k.mmu.ram, k.mmu.pf
    ensures k.Valid() && WorldOk(old(WorldOf(k))) && Enabled(old(WorldOf(k)), e)
    ensures WorldOf(k) == Do(old(WorldOf(k)), e)
    ensures PayloadsFollow(old(k.h), k.h, old(k.mmu.Heap()), k.mmu.Heap(), e)
    ensures |old(k.h).tallies| == HeapBlocks.POOLS
    ensures MemoryProgram.HeldThroughout(old(k.mmu.ram.frames), k.mmu.ram.frames, old(k.mmu.st), k.mmu.st,
                                         StepsOf(old(WorldOf(k)), e))
  {
    ghost var w, vm, m := WorldOf(k), k.mmu.Heap(), k.mmu.ram.frames;
    StatesOk(w);
    TallyCount(w.h);
    match e {
      case Malloc(size) => PerformMalloc(k, size);
      case Mfree(a) => PerformMfree(k, a);
      case Payload(b, va, x) => PerformPayload(k, b, va, x);
      case Other(step) => PerformAnother(k, step);
    }
    hide WorldOk, Do, PayloadsFollow, MemoryLayout.HeldKept, HeapBlocks.Inv, MemoryState.Inv;
    if !e.Other? {
      KernelSteps(w, e);
      MemoryProgram.HeldByKernel(m, k.mmu.ram.frames, w.s, k.mmu.st, StepsOf(w, e));
    }
  }

  /** kmalloc, kfree and stores into blocks store to no held frame. */
  lemma KernelSteps(w: World, e: Event)
    requires |w.h.tallies| == HeapBlocks.POOLS && !e.Other?
    requires e.Malloc? ==> e.size > 0
    requires e.Mfree? ==> e.block in w.h.blocks
    ensures MemoryProgram.NoHeldStores(StepsOf(w, e))
  {
    hide HeapBlocks.PagesWanted;
  }

  method PerformAnother(k: Kmalloc, step: MemoryRuns.Step)
    requires k.Valid() && WorldOk(WorldOf(k)) && Enabled(WorldOf(k), Other(step))
    modifies k, k.mmu, k.mmu.ram, k.mmu.pf
    ensures k.Valid() && WorldOk(old(WorldOf(k))) && Enabled(old(WorldOf(k)), Other(step))
    ensures WorldOf(k) == Do(old(WorldOf(k)), Other(step))
    ensures PayloadsFollow(old(k.h), k.h, old(k.mmu.Heap()), k.mmu.Heap(), Other(step))
    ensures MemoryProgram.HeldThroughout(old(k.mmu.ram.frames), k.mmu.ram.frames, old(k.mmu.st), k.mmu.st, [step])
  {
    ghost var w, vm, m := WorldOf(k), k.mmu.Heap(), k.mmu.ram.frames;
    hide WorldOk, MemoryRuns.Enabled, MemoryRuns.Do, Do, PayloadsFollow, MemoryProgram.HeldFollow,
         MemoryProgram.HeldThroughout;
    DoStep(w, Other(step), step);
    PerformOther(k, step);
    OtherFollows(w, step, vm, k.mmu.Heap());
    MemoryProgram.HeldOneStep(m, k.mmu.ram.frames, w.s, k.mmu.st, step);
  }

  method PerformMalloc(k: Kmalloc, size: u64)
    requires k.Valid() && WorldOk(WorldOf(k)) && Enabled(WorldOf(k), Malloc(size))
    modifies k, k.mmu, k.mmu.ram, k.mmu.pf
    ensures k.Valid() && WorldOk(old(WorldOf(k))) && Enabled(old(WorldOf(k)), Malloc(size))
    ensures WorldOf(k) == Do(old(WorldOf(k)), Malloc(size))
    ensures PayloadsFollow(old(k.h), k.h, old(k.mmu.Heap()), k.mmu.Heap(), Malloc(size))
    ensures MemoryLayout.HeldKept(old(k.mmu.ram.frames), k.mmu.ram.frames, old(k.mmu.st), k.mmu.st, 0)
  {
    ghost var w, vm := WorldOf(k), k.mmu.Heap();
    DoMalloc(w, size);
    assert 0 < size <= 0xFFFF_FFFF_FFFF_FFEF;
    assert k.CanServe(size);
    hide WorldOk, Enabled, Do, PayloadsFollow, HeapBlocks.Do, HeapBlocks.Enabled, HeapBlocks.Chosen,
         HeapBlocks.PagesWanted, Room, TakePages, KeptBut, HeapBlocks.Inv, MemoryState.Inv, FitsRequest;
    var p := k.Alloc(size);
    MallocFollows(w, size, vm, k.mmu.Heap());
  }

  method PerformMfree(k: Kmalloc, a: int)
    requires k.Valid() && WorldOk(WorldOf(k)) && Enabled(WorldOf(k), Mfree(a))
    modifies k, k.mmu, k.mmu.ram, k.mmu.pf
    ensures k.Valid() && WorldOk(old(WorldOf(k))) && Enabled(old(WorldOf(k)), Mfree(a))
    ensures WorldOf(k) == Do(old(WorldOf(k)), Mfree(a))
    ensures PayloadsFollow(old(k.h), k.h, old(k.mmu.Heap()), k.mmu.Heap(), Mfree(a))
    ensures MemoryLayout.HeldKept(old(k.mmu.ram.frames), k.mmu.ram.frames, old(k.mmu.st), k.mmu.st, 0)
  {
    ghost var w, vm := WorldOf(k), k.mmu.Heap();
    DoMfree(w, a);
    BlockAddress(w.h, w.s, a);
    hide WorldOk, Do, PayloadsFollow, HeapBlocks.Do, HeapBlocks.Enabled, KeptBut, HeapBlocks.Inv, MemoryState.Inv,
         OnlyRunGone, MemoryState.ReleasePages;
    k.Release(a + 16);
    if w.h.blocks[a].Live? {
      PushFollows(w, a, vm, k.mmu.Heap());
    } else {
      DropFollows(w, a, k.mmu.st, vm, k.mmu.Heap());
    }
  }

  method PerformPayload(k: Kmalloc, b: int, va: u64, x: u64)
    requires k.Valid() && WorldOk(WorldOf(k)) && Enabled(WorldOf(k), Payload(b, va, x))
    modifies k, k.mmu, k.mmu.ram, k.mmu.pf
    ensures k.Valid() && WorldOk(old(WorldOf(k))) && Enabled(old(WorldOf(k)), Payload(b, va, x))
    ensures WorldOf(k) == Do(old(WorldOf(k)), Payload(b, va, x))
    ensures PayloadsFollow(old(k.h), k.h, old(k.mmu.Heap()), k.mmu.Heap(), Payload(b, va, x))
    ensures MemoryLayout.HeldKept(old(k.mmu.ram.frames), k.mmu.ram.frames, old(k.mmu.st), k.mmu.st, 0)
  {
    ghost var w, vm := WorldOf(k), k.mmu.Heap();
    DoStep(w, Payload(b, va, x), MemoryRuns.Store(va, x));
    BlockAddress(w.h, w.s, b);
    hide WorldOk, Do, PayloadsFollow, HeapBlocks.Inv, MemoryState.Inv, Wrote, MemoryState.Touched;
    k.WritePayload(b, va, x);
    PayloadFollows(w, b, va, x, vm, k.mmu.Heap());
  }

  /** A run of kmalloc, kfree, stores into blocks and other clients on the machine ends
      in the state of the abstract run, and every payload word of a block never freed
      holds what was stored there last. */
  method PerformEvents(k: Kmalloc, events: seq<Event>)
    requires k.Valid() && WorldOk(WorldOf(k)) && Runs(WorldOf(k), events)
    modifies k, k.mmu, k.mmu.ram, k.mmu.pf
    ensures k.Valid() && WorldOk(old(WorldOf(k))) && Runs(old(WorldOf(k)), events)
    ensures WorldOf(k) == Run(old(WorldOf(k)), events)
    ensures forall b, va :: Holds(old(k.h), old(k.mmu.Heap()), b, va) && NeverFreed(events, b) ==>
              && Holds(k.h, k.mmu.Heap(), b, va)
              && VWord(k.mmu.Heap(), va) == WordAfter(events, va, VWord(old(k.mmu.Heap()), va))
    ensures MemoryProgram.HeldThroughout(old(k.mmu.ram.frames), k.mmu.ram.frames, old(k.mmu.st), k.mmu.st,
                                         AllSteps(old(WorldOf(k)), events))
    decreases |events|
  {
    hide WorldOk, Enabled, Do, PayloadsFollow, Holds, VWord, Stored, StepsOf, MemoryProgram.HeldThroughout;
    ghost var w, vm, m := WorldOf(k), k.mmu.Heap(), k.mmu.ram.frames;
    if events == [] {
      MemoryProgram.HeldAtOnce(m, w.s);
    } else {
      StepsRun(w, events[0]);
      DoKeeps(w, events[0]);
      PerformEvent(k, events[0]);
      ghost var h1, vm1, m1, w1 := k.h, k.mmu.Heap(), k.mmu.ram.frames, WorldOf(k);
      PerformEvents(k, events[1..]);
      MemoryProgram.HeldAppend(m, m1, k.mmu.ram.frames, w.s, w1.s, k.mmu.st, StepsOf(w, events[0]),
                               AllSteps(w1, events[1..]));
      forall b, va | Holds(w.h, vm, b, va) && NeverFreed(events, b)
        ensures Holds(k.h, k.mmu.Heap(), b, va)
        ensures VWord(k.mmu.Heap(), va) == WordAfter(events, va, VWord(vm, va))
      {
        Follows(w.h, h1, vm, vm1, events[0], b, va);
        RestNeverFrees(events, b);
      }
    }
  }

  lemma Follows(h: HeapBlocks.Heap, h': HeapBlocks.Heap, vm: VMem, vm': VMem, e: Event, b: int, va: int)
    requires PayloadsFollow(h, h', vm, vm', e) && Holds(h, vm, b, va) && e != Mfree(b)
    ensures Holds(h', vm', b, va) && VWord(vm', va) == Stored(e, va, VWord(vm, va))
  {
    hide Holds, VWord, Stored;
  }

  lemma RestNeverFrees(events: seq<Event>, b: int)
    requires events != [] && NeverFreed(events, b)
    ensures events[0] != Mfree(b) && NeverFreed(events[1..], b)
  {
  }
}
