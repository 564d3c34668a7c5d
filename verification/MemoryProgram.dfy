/** The operations on memory carry out the steps of the abstract runs. */
module MemoryProgram {
  import opened Geometry
  import MemoryLayout
  import FramePool
  import MemoryState
  import opened PhysicalMemory
  import opened MemoryRuns
  import opened FrameAllocation
  import opened VirtualPages

  /** One call on the machine does exactly the abstract step; so whatever holds over
      all runs of MemoryRuns holds of the page tables, the ring and the heap pages in
      memory. */
  method Perform(mmu: Mmu, step: Step)
    requires mmu.Valid() && Enabled(mmu.st, step)
    modifies mmu, mmu.ram, mmu.pf
    ensures mmu.Valid()
    ensures mmu.st == Do(old(mmu.st), step)
    ensures forall v :: v in old(mmu.Heap()) && !Ends(step, InPage(v)) ==>
              v in mmu.Heap() && mmu.Heap()[v] == Stored(step, InPage(v), old(mmu.Heap())[v])
    ensures HeldFollow(old(mmu.ram.frames), mmu.ram.frames, old(mmu.st), mmu.st, step)
  {
    hide Mmu.Valid, Mmu.Heap, MemoryState.Inv, MemoryState.CanReserve, MemoryState.ReservePages,
         MemoryState.ReleasePages, MemoryState.Releasable, MemoryState.Touched, MemoryState.AllocFrame,
         MemoryState.FreeFrame, HeldFollow, MemoryLayout.HeldKept;
    ghost var s, m := mmu.st, mmu.ram.frames;
    mmu.HeapPages();
    match step {
      case TakeFrame =>
        var _ := mmu.AllocFrame();
      case ReturnFrame(f) =>
        HeldAddress(mmu, f);
        mmu.FreeFrame(4096 * f);
      case Reserve(n) =>
        var _ := mmu.AllocPages(n);
      case Release(v, n) =>
        PerformRelease(mmu, v, n);
      case Access(v) =>
        PerformAccess(mmu, v);
      case Store(va, x) =>
        ghost var _ := mmu.WriteWord(va, x);
      case StoreHeld(f, i, x) =>
        HeldAddress(mmu, f);
        mmu.WriteFrame(4096 * f, i, x);
      case Mark(f, i, marks) =>
        TableAddress(mmu, f);
        mmu.ProcessorMarks(f, i, marks);
    }
    HeldStep(m, mmu.ram.frames, s, mmu.st, step);
  }

  /** Frame `f`, held before and not returned by the step, is held still and holds what
      the step makes of its words. */
  ghost predicate HeldFollows(m: Memory, m': Memory, s: MemoryState.State, t: MemoryState.State, step: Step, f: int) {
    MemoryLayout.IsHeld(s, f) && 0 <= f < |m| && !Ends(step, InFrame(f)) ==>
      MemoryLayout.IsHeld(t, f) && f < |m'| && m'[f] == Stored(step, InFrame(f), m[f])
  }

  ghost predicate HeldFollow(m: Memory, m': Memory, s: MemoryState.State, t: MemoryState.State, step: Step) {
    forall f :: HeldFollows(m, m', s, t, step, f)
  }

  /** The frame that the step itself is about; 0 if it is about none. */
  function About(step: Step): int {
    if step.ReturnFrame? || step.StoreHeld? then step.frame else 0
  }

  lemma HeldStep(m: Memory, m': Memory, s: MemoryState.State, t: MemoryState.State, step: Step)
    requires MemoryState.Inv(s) && Enabled(s, step)
    requires MemoryLayout.HeldKept(m, m', s, t, About(step))
    requires step.StoreHeld? ==>
               t == s && 0 <= step.frame < |m| && m' == Put(m, step.frame, step.index, step.word)
    ensures HeldFollow(m, m', s, t, step)
  {
    hide MemoryState.Inv, MemoryState.CanReserve;
    RecordNotHeld(s);
    forall f ensures HeldFollows(m, m', s, t, step, f) {
      assert MemoryLayout.HeldWords(m, m', s, t, About(step), f);
    }
  }

  lemma RecordNotHeld(s: MemoryState.State)
    requires MemoryState.Inv(s)
    ensures !MemoryLayout.IsHeld(s, 0)
  {
  }

  lemma TableAddress(mmu: Mmu, f: int)
    requires mmu.Valid() && f in mmu.st.own && mmu.st.own[f].Table?
    ensures 0 < f < MAX_FRAMES
  {
    MemoryLayout.TableOf(mmu.ram.frames, mmu.st, f);
  }

  /** A whole run on the machine ends in the state of the abstract run.  Conservation,
      table cost, disjoint ranges and caught double frees are therefore facts about the
      memory reached; and a page mapped at the start and never released, or a frame held
      at the start and never returned, holds, word by word, what was stored there last. */
  method PerformAll(mmu: Mmu, steps: seq<Step>)
    requires mmu.Valid() && Runs(mmu.st, steps)
    modifies mmu, mmu.ram, mmu.pf
    ensures mmu.Valid() && MemoryState.Inv(old(mmu.st)) && Runs(old(mmu.st), steps)
    ensures mmu.st == Run(old(mmu.st), steps)
    ensures forall v :: v in old(mmu.Heap()) && NeverEnds(steps, InPage(v)) ==>
              v in mmu.Heap() && mmu.Heap()[v] == WordsAfter(steps, InPage(v), old(mmu.Heap())[v])
    ensures HeldThroughout(old(mmu.ram.frames), mmu.ram.frames, old(mmu.st), mmu.st, steps)
    decreases |steps|
  {
    hide Mmu.Valid, Mmu.Heap, MemoryState.Inv, Do, Enabled, Stored, Ends, HeldFollow, HeldThroughout;
    ghost var vm, s, m := mmu.Heap(), mmu.st, mmu.ram.frames;
    mmu.HeapPages();
    if steps == [] {
      HeldAtOnce(m, s);
    } else {
      DoKeeps(s, steps[0]);
      Perform(mmu, steps[0]);
      ghost var vm1, s1, m1 := mmu.Heap(), mmu.st, mmu.ram.frames;
      PerformAll(mmu, steps[1..]);
      HeldAlong(m, m1, mmu.ram.frames, s, s1, mmu.st, steps);
      forall v | v in vm && NeverEnds(steps, InPage(v))
        ensures v in mmu.Heap() && mmu.Heap()[v] == WordsAfter(steps, InPage(v), vm[v])
      {
        RestNeverEnds(steps, InPage(v));
        assert v in vm1;
      }
    }
  }

  ghost predicate HeldToEnd(m: Memory, m': Memory, s: MemoryState.State, t: MemoryState.State, steps: seq<Step>,
      f: int) {
    MemoryLayout.IsHeld(s, f) && 0 <= f < |m| && NeverEnds(steps, InFrame(f)) ==>
      MemoryLayout.IsHeld(t, f) && f < |m'| && m'[f] == WordsAfter(steps, InFrame(f), m[f])
  }

  ghost predicate HeldThroughout(m: Memory, m': Memory, s: MemoryState.State, t: MemoryState.State, steps: seq<Step>) {
    forall f :: HeldToEnd(m, m', s, t, steps, f)
  }

  lemma HeldAtOnce(m: Memory, s: MemoryState.State)
    ensures HeldThroughout(m, m, s, s, [])
  {
  }

  lemma HeldAlong(m: Memory, m1: Memory, m2: Memory, s: MemoryState.State, s1: MemoryState.State, s2: MemoryState.State,
                  steps: seq<Step>)
    requires steps != [] && HeldFollow(m, m1, s, s1, steps[0]) && HeldThroughout(m1, m2, s1, s2, steps[1..])
    ensures HeldThroughout(m, m2, s, s2, steps)
  {
    hide Ends, Stored, MemoryLayout.IsHeld;
    forall f ensures HeldToEnd(m, m2, s, s2, steps, f) {
      assert HeldFollows(m, m1, s, s1, steps[0], f) && HeldToEnd(m1, m2, s1, s2, steps[1..], f);
      if NeverEnds(steps, InFrame(f)) { RestNeverEnds(steps, InFrame(f)); }
    }
  }

  /** From start-up on: after any run that reserved N pages the page tables in memory
      number as many as N says, and the frames still add up. */
  method BootAndRun(ram: Ram, pf: FrameAllocator, steps: seq<Step>) returns (mmu: Mmu)
    requires pf.ram == ram && pf.Valid() && FramePool.Available(pf.pool) >= 2
    requires MemoryState.Inv(MemoryState.Boot(pf.pool)) && Runs(MemoryState.Boot(pf.pool), steps)
    modifies ram, pf
    ensures mmu.Valid() && mmu.ram == ram
    ensures mmu.kernHeapTop == 0x100_0000_0000 + 4096 * Reserved(steps)
    ensures var n := Reserved(steps);
            |TableFrames(mmu.st)| == 2 + CeilDiv(n, 512) + CeilDiv(n, 262144) + CeilDiv(n, 134217728)
    ensures FramePool.WellFormed(old(pf.pool))
    ensures |mmu.st.own| == |MemoryState.Boot(old(pf.pool)).own|
            == 1 + |mmu.st.pool.stack| + mmu.st.pool.unpooled + |TableFrames(mmu.st)| + |MappedPages(mmu.st)|
                + |HeldFrames(mmu.st)|
  {
    ghost var p := pf.pool;
    mmu := new Mmu(ram, pf);
    PerformAll(mmu, steps);
    hide MemoryState.Inv, Runs, Run, MemoryState.Boot, CeilDiv, TableFrames, MappedPages, HeldFrames,
         FramePool.WellFormed, FramePool.Available;
    RunKeepsInvariant(MemoryState.Boot(p), steps);
    RunTableCost(p, steps);
    FramesAddUp(mmu.st);
    assert |mmu.st.own| == |mmu.st.own.Keys|;
    assert |MemoryState.Boot(p).own| == |MemoryState.Boot(p).own.Keys|;
  }

  lemma RestNeverEnds(steps: seq<Step>, at: Place)
    requires steps != [] && NeverEnds(steps, at)
    ensures !Ends(steps[0], at) && NeverEnds(steps[1..], at)
  {
    hide Ends;
  }

  /** MMU_free_pages on pages that are all in use: no assert stops it. */
  method PerformRelease(mmu: Mmu, v: int, n: nat)
    requires mmu.Valid() && n > 0 && forall i :: v <= i < v + n ==> i in mmu.st.pages
    modifies mmu, mmu.ram, mmu.pf
    ensures mmu.Valid() && MemoryState.Inv(old(mmu.st))
    ensures mmu.st == MemoryState.ReleasePages(old(mmu.st), v, n)
    ensures forall w :: w in old(mmu.Heap()) && !(v <= w < v + n) ==>
              w in mmu.Heap() && mmu.Heap()[w] == old(mmu.Heap())[w]
    ensures MemoryLayout.HeldKept(old(mmu.ram.frames), mmu.ram.frames, old(mmu.st), mmu.st, 0)
  {
    assert MemoryState.HEAP_BASE == 0x1000_0000 && MemoryState.HEAP_LIMIT == 0x8_0000_0000;
    hide *;
    ghost var s := mmu.st;
    mmu.HeapPages();
    RunOfPages(s, v, n);
    MemoryState.ReleaseAll(s, v, n);
    FrameAddress(v);
    var vp := 4096 * v;
    assert vp / 4096 == v && vp % 4096 == 0;
    ghost var vm := mmu.Heap();
    var ok := mmu.FreePages(vp, n);
    assert ok;
    forall w | w in vm && !(v <= w < v + n) ensures w in mmu.Heap() { assert w in s.pages; }
  }

  /** A load from a page in use. */
  method PerformAccess(mmu: Mmu, v: int)
    requires mmu.Valid() && v in mmu.st.pages
    requires mmu.st.pages[v] == MemoryState.Demand ==> FramePool.Available(mmu.st.pool) > 0
    modifies mmu, mmu.ram, mmu.pf
    ensures mmu.Valid() && old(mmu.st).pool.stack != []
    ensures mmu.st == MemoryState.Touched(old(mmu.st), v)
    ensures forall w :: w in old(mmu.Heap()) ==> w in mmu.Heap() && mmu.Heap()[w] == old(mmu.Heap())[w]
    ensures MemoryLayout.HeldKept(old(mmu.ram.frames), mmu.ram.frames, old(mmu.st), mmu.st, 0)
  {
    assert MemoryState.HEAP_LIMIT == 0x8_0000_0000 && MemoryState.HEAP_BASE == 0x1000_0000;
    hide *;
    mmu.HeapPages();
    MemoryState.TouchRange(mmu.st, v);
    var _ := mmu.ReadWord(4096 * v);
  }

  lemma RunOfPages(s: MemoryState.State, v: int, n: nat)
    requires MemoryState.Inv(s) && n > 0 && forall i :: v <= i < v + n ==> i in s.pages
    ensures MemoryState.HEAP_BASE <= v && v + n <= MemoryState.HEAP_LIMIT
  {
    assert MemoryState.PageOk(s, v) && MemoryState.PageOk(s, v + n - 1);
  }

  lemma HeldAddress(mmu: Mmu, f: int)
    requires mmu.Valid() && f in mmu.st.own && mmu.st.own[f] == MemoryState.Held
    ensures 0 < f < MAX_FRAMES && 4096 * f / 4096 == f && 4096 * f % 4096 == 0
  {
    MemoryLayout.HeldFrame(mmu.ram.frames, mmu.st, f);
  }

  // ---- Held frames over pieces of a run ----------------------------------------

  lemma HeldOneStep(m: Memory, m': Memory, s: MemoryState.State, t: MemoryState.State, step: Step)
    requires HeldFollow(m, m', s, t, step)
    ensures HeldThroughout(m, m', s, t, [step])
  {
    HeldAtOnce(m', t);
    assert [step][1..] == [];
    HeldAlong(m, m', m', s, t, t, [step]);
    hide HeldFollow, HeldThroughout;
  }

  /** Steps that store to no held frame. */
  predicate NoHeldStores(steps: seq<Step>) {
    forall k :: 0 <= k < |steps| ==> !steps[k].StoreHeld?
  }

  lemma {:induction false} HeldUnstored(steps: seq<Step>, f: int, fr: Frame)
    requires NoHeldStores(steps)
    ensures WordsAfter(steps, InFrame(f), fr) == fr
    decreases |steps|
  {
    if steps != [] {
      assert !steps[0].StoreHeld?;
      HeldUnstored(steps[1..], f, fr);
    }
  }

  lemma HeldByKernel(m: Memory, m': Memory, s: MemoryState.State, t: MemoryState.State, steps: seq<Step>)
    requires MemoryState.Inv(s) && MemoryLayout.HeldKept(m, m', s, t, 0) && NoHeldStores(steps)
    ensures HeldThroughout(m, m', s, t, steps)
  {
    RecordNotHeld(s);
    hide MemoryState.Inv, WordsAfter, NoHeldStores, NeverEnds;
    forall f ensures HeldToEnd(m, m', s, t, steps, f) {
      assert MemoryLayout.HeldWords(m, m', s, t, 0, f);
      if 0 <= f < |m| { HeldUnstored(steps, f, m[f]); }
    }
  }

  lemma {:induction false} WordsAppend(first: seq<Step>, rest: seq<Step>, at: Place, fr: Frame)
    ensures WordsAfter(first + rest, at, fr) == WordsAfter(rest, at, WordsAfter(first, at, fr))
    decreases |first|
  {
    if first == [] {
      assert first + rest == rest;
    } else {
      assert (first + rest)[1..] == first[1..] + rest;
      WordsAppend(first[1..], rest, at, Stored(first[0], at, fr));
    }
    hide Stored;
  }

  lemma NeverEndsSplit(first: seq<Step>, rest: seq<Step>, at: Place)
    requires NeverEnds(first + rest, at)
    ensures NeverEnds(first, at) && NeverEnds(rest, at)
  {
    hide Ends;
    var both := first + rest;
    forall k | 0 <= k < |first| ensures !Ends(first[k], at) { assert both[k] == first[k]; }
    forall k | 0 <= k < |rest| ensures !Ends(rest[k], at) { assert both[|first| + k] == rest[k]; }
  }

  lemma HeldAppend(m: Memory, m1: Memory, m2: Memory,
                   s: MemoryState.State, s1: MemoryState.State, s2: MemoryState.State,
                   first: seq<Step>, rest: seq<Step>)
    requires HeldThroughout(m, m1, s, s1, first) && HeldThroughout(m1, m2, s1, s2, rest)
    ensures HeldThroughout(m, m2, s, s2, first + rest)
  {
    hide WordsAfter, NeverEnds, MemoryLayout.IsHeld;
    forall f ensures HeldToEnd(m, m2, s, s2, first + rest, f) {
      assert HeldToEnd(m, m1, s, s1, first, f) && HeldToEnd(m1, m2, s1, s2, rest, f);
      if NeverEnds(first + rest, InFrame(f)) { NeverEndsSplit(first, rest, InFrame(f)); }
      if 0 <= f < |m| { WordsAppend(first, rest, InFrame(f), m[f]); }
    }
  }
}
