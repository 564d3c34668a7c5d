/** Runs of the whole memory system: kmalloc, kfree and stores into blocks, mixed with
    whatever other clients of frames and pages do in between. */
module HeapRuns {
  import opened MachineWords
  import HeapBlocks
  import opened Geometry
  import MemoryState
  import MemoryRuns
  import opened KernelHeap

  datatype World = World(h: HeapBlocks.Heap, s: MemoryState.State)

  datatype Event =
    | Malloc(size: u64)
    | Mfree(block: int)                             // by the address of its header
    | Payload(block: int, va: u64, word: u64)       // an owner's store into its block
    | Other(step: MemoryRuns.Step)                  // a step of another client

  ghost predicate WorldOk(w: World) {
    HeapBlocks.Inv(w.h) && HeapBlocks.Settled(w.h) && MemoryState.Inv(w.s) && PagesCover(w.h, w.s)
  }

  /** The aligned word at `va` holds bytes of the payload of live block `b`. */
  ghost predicate InPayload(h: HeapBlocks.Heap, b: int, va: int) {
    && b in h.blocks && !h.blocks[b].Free? && (h.blocks[b].Large? || h.blocks[b].pool < HeapBlocks.POOLS)
    && va % 8 == 0 && b + HeapBlocks.HEADER < va + 8 && va < b + HeapBlocks.Extent(h.blocks[b])
  }

  /** Another client neither frees kmalloc's pages nor stores into them. */
  predicate OffHeap(h: HeapBlocks.Heap, step: MemoryRuns.Step) {
    match step
    case Release(v, n) => forall i :: v <= i < v + n ==> i !in h.uses
    case Store(va, _) => va / 4096 !in h.uses
    case _ => true
  }

  ghost predicate Enabled(w: World, e: Event)
    requires WorldOk(w)
  {
    match e
    case Malloc(size) =>
      0 < size <= 0xFFFF_FFFF_FFFF_FFEF
      && (HeapBlocks.PagesWanted(w.h, size) > 0 ==> Room(w.s, HeapBlocks.PagesWanted(w.h, size)))
    case Mfree(a) => a in w.h.blocks && !w.h.blocks[a].Free?
    case Payload(b, va, x) => InPayload(w.h, b, va) && MemoryRuns.Enabled(w.s, MemoryRuns.Store(va, x))
    case Other(step) => MemoryRuns.Enabled(w.s, step) && OffHeap(w.h, step)
  }

  /** What the event asks of kmalloc, if anything. */
  function Call(w: World, e: Event): HeapBlocks.Step
    requires e.Malloc? || e.Mfree?
  {
    if e.Malloc? then HeapBlocks.Malloc(e.size, w.s.top) else HeapBlocks.Mfree(e.block)
  }

  lemma CallReady(w: World, e: Event)
    requires WorldOk(w) && Enabled(w, e) && (e.Malloc? || e.Mfree?)
    ensures HeapBlocks.Enabled(w.h, Call(w, e))
  {
    if e.Malloc? {
      var n := HeapBlocks.PagesWanted(w.h, e.size);
      if n > 0 {
        RoomParts(w.s, n);
        NewPages(w.s, map[], w.h, n);
      }
    }
    hide HeapBlocks.Inv, MemoryState.Inv, HeapBlocks.PagesWanted, Room, PagesCover;
  }

  /** The steps that the event takes on frames and pages. */
  function StepsOf(w: World, e: Event): seq<MemoryRuns.Step>
    requires |w.h.tallies| == HeapBlocks.POOLS
    requires e.Malloc? ==> e.size > 0
    requires e.Mfree? ==> e.block in w.h.blocks
  {
    match e
    case Malloc(size) =>
      var n := HeapBlocks.PagesWanted(w.h, size);
      if n == 0 then [] else [MemoryRuns.Reserve(n), MemoryRuns.Access(w.s.top)]
    case Mfree(a) =>
      if w.h.blocks[a].Large? then [MemoryRuns.Release(a / 4096, w.h.blocks[a].pages)] else []
    case Payload(_, va, x) => [MemoryRuns.Store(va, x)]
    case Other(step) => [step]
  }

  ghost function Do(w: World, e: Event): World
    requires WorldOk(w) && Enabled(w, e)
  {
    StepsRun(w, e);
    World(
      if e.Malloc? || e.Mfree? then CallReady(w, e); HeapBlocks.Do(w.h, Call(w, e)) else w.h,
      MemoryRuns.Run(w.s, StepsOf(w, e)))
  }

  /** The event's steps can be taken: so a run of kmalloc is, for frames and pages, a
      run like any other. */
  lemma StepsRun(w: World, e: Event)
    requires WorldOk(w) && Enabled(w, e)
    ensures (e.Malloc? ==> e.size > 0) && (e.Mfree? ==> e.block in w.h.blocks)
    ensures |w.h.tallies| == HeapBlocks.POOLS && MemoryRuns.Runs(w.s, StepsOf(w, e))
  {
    hide HeapBlocks.Inv, MemoryState.Inv, MemoryRuns.Do, HeapBlocks.PagesWanted;
    TallyCount(w.h);
    match e
    case Malloc(size) =>
      var n := HeapBlocks.PagesWanted(w.h, size);
      if n == 0 { NoSteps(w.s); } else { TakeIsRun(w.s, n); }
    case Mfree(a) =>
      if w.h.blocks[a].Large? {
        LargeRun(w.h, w.s, a);
        OneStep(w.s, MemoryRuns.Release(a / 4096, w.h.blocks[a].pages));
      } else {
        NoSteps(w.s);
      }
    case Payload(_, va, x) => OneStep(w.s, MemoryRuns.Store(va, x));
    case Other(step) => OneStep(w.s, step);
  }

  lemma TallyCount(h: HeapBlocks.Heap)
    requires HeapBlocks.Inv(h)
    ensures |h.tallies| == HeapBlocks.POOLS
  {
  }

  lemma NoSteps(s: MemoryState.State)
    requires MemoryState.Inv(s)
    ensures MemoryRuns.Runs(s, []) && MemoryRuns.Run(s, []) == s
  {
    hide MemoryState.Inv;
  }

  lemma OneStep(s: MemoryState.State, step: MemoryRuns.Step)
    requires MemoryState.Inv(s) && MemoryRuns.Enabled(s, step)
    ensures MemoryRuns.Runs(s, [step]) && MemoryRuns.Run(s, [step]) == MemoryRuns.Do(s, step)
  {
    hide MemoryState.Inv, MemoryRuns.Do, MemoryRuns.Enabled;
    MemoryRuns.DoKeeps(s, step);
    assert [step][1..] == [];
  }

  /** Taking pages is a reservation and one access. */
  lemma TakeIsRun(s: MemoryState.State, n: nat)
    requires MemoryState.Inv(s) && Room(s, n) && n > 0
    ensures var steps := [MemoryRuns.Reserve(n), MemoryRuns.Access(s.top)];
            MemoryRuns.Runs(s, steps) && MemoryRuns.Run(s, steps) == TakePages(s, n)
  {
    hide MemoryState.Inv, MemoryState.ReservePages, MemoryState.Touched, MemoryState.Cost;
    FreshTop(s, n);
    var t := MemoryState.ReservePages(s, n);
    OneStep(s, MemoryRuns.Reserve(n));
    OneStep(t, MemoryRuns.Access(s.top));
    MemoryRuns.RunAppend(s, [MemoryRuns.Reserve(n)], [MemoryRuns.Access(s.top)]);
    assert [MemoryRuns.Reserve(n)] + [MemoryRuns.Access(s.top)] == [MemoryRuns.Reserve(n), MemoryRuns.Access(s.top)];
  }

  // ---- The invariant of both layers --------------------------------------------

  lemma DoKeeps(w: World, e: Event)
    requires WorldOk(w) && Enabled(w, e)
    ensures WorldOk(Do(w, e))
  {
    hide HeapBlocks.Inv, HeapBlocks.Settled, MemoryState.Inv, MemoryRuns.Runs, MemoryRuns.Run, HeapBlocks.Do,
         PagesCover;
    StepsRun(w, e);
    MemoryRuns.RunKeepsInvariant(w.s, StepsOf(w, e));
    if e.Malloc? || e.Mfree? {
      CallReady(w, e);
      HeapBlocks.DoKeeps(w.h, Call(w, e));
    }
    match e
    case Malloc(_) => MallocCovers(w, e);
    case Mfree(_) => MfreeCovers(w, e);
    case Payload(_, va, x) => StepCovers(w, MemoryRuns.Store(va, x));
    case Other(step) => StepCovers(w, step);
  }

  lemma MallocCovers(w: World, e: Event)
    requires WorldOk(w) && Enabled(w, e) && e.Malloc?
    ensures PagesCover(Do(w, e).h, Do(w, e).s)
  {
    hide HeapBlocks.Inv, HeapBlocks.Settled, MemoryState.Inv, MemoryRuns.Runs, MemoryRuns.Run, HeapBlocks.Do,
         PagesCover, HeapBlocks.BestPool, HeapBlocks.PagesWanted, HeapBlocks.AddPage, HeapBlocks.AddLarge,
         HeapBlocks.PopChunk, TakePages;
    TallyCount(w.h);
    var n := HeapBlocks.PagesWanted(w.h, e.size);
    StepsRun(w, e);
    CallReady(w, e);
    var t := Do(w, e).s;
    if n == 0 {
      NoSteps(w.s);
    } else {
      TakeIsRun(w.s, n);
      PagesTaken(w.s, n);
    }
    UsesGrow(w.h, w.s, t, e.size);
  }

  /** Taking pages puts them in use and leaves the others in use. */
  lemma PagesTaken(s: MemoryState.State, n: nat)
    requires MemoryState.Inv(s) && Room(s, n) && n > 0
    ensures var t := TakePages(s, n);
            && (forall v :: v in s.pages ==> v in t.pages)
            && (forall v :: s.top <= v < s.top + n ==> v in t.pages)
  {
    hide MemoryState.Inv, MemoryState.ReservePages, MemoryState.Touched, MemoryState.Cost;
    FreshTop(s, n);
    var t := MemoryState.ReservePages(s, n);
    MemoryState.TouchedPages(t, s.top);
    forall v ensures (v in s.pages ==> v in t.pages) && (s.top <= v < s.top + n ==> v in t.pages) {
      MemoryState.ReservedPages(s, n, v);
    }
  }

  lemma UsesGrow(h: HeapBlocks.Heap, s: MemoryState.State, t: MemoryState.State, size: int)
    requires HeapBlocks.Inv(h) && HeapBlocks.Settled(h) && MemoryState.Inv(s) && PagesCover(h, s) && size > 0
    requires |h.tallies| == HeapBlocks.POOLS
    requires HeapBlocks.Enabled(h, HeapBlocks.Malloc(size, s.top))
    requires forall v :: v in s.pages ==> v in t.pages
    requires forall v :: s.top <= v < s.top + HeapBlocks.PagesWanted(h, size) ==> v in t.pages
    ensures PagesCover(HeapBlocks.Do(h, HeapBlocks.Malloc(size, s.top)), t)
  {
    hide HeapBlocks.Inv, HeapBlocks.Settled, MemoryState.Inv, HeapBlocks.Do, HeapBlocks.BestPool,
         HeapBlocks.PagesWanted, HeapBlocks.AddPage, HeapBlocks.AddLarge, HeapBlocks.PopChunk, PagesCover,
         HeapBlocks.Avail, HeapBlocks.Chosen, HeapBlocks.Refilled;
    HeapBlocks.BestPoolIsTight(size + HeapBlocks.HEADER);
    var i := HeapBlocks.BestPool(size + HeapBlocks.HEADER);
    if i == HeapBlocks.POOLS {
      PlanLarge(h, size, s.top);
      EnabledUnused(h, size, s.top);
      AddLargeUses(h, s.top, HeapBlocks.PagesWanted(h, size), size + HeapBlocks.HEADER, s, t);
    } else {
      TopUnused(h, s);
      PlanPooled(h, size, s.top);
      var r := HeapBlocks.Refilled(h, i, s.top);
      CoverKept(h, s, t);
      if HeapBlocks.Avail(h, i) == 0 { AddPageCovered(h, i, s.top, s, t); }
      ListCount(r);
      PopUses(r, i, size + HeapBlocks.HEADER);
      SameUses(r, HeapBlocks.PopChunk(r, i, size + HeapBlocks.HEADER), t);
    }
  }

  lemma ListCount(h: HeapBlocks.Heap)
    requires HeapBlocks.Inv(h)
    ensures |h.lists| == HeapBlocks.POOLS
  {
  }

  lemma EnabledUnused(h: HeapBlocks.Heap, size: int, page: int)
    requires HeapBlocks.Inv(h) && |h.tallies| == HeapBlocks.POOLS && size > 0
    requires HeapBlocks.Enabled(h, HeapBlocks.Malloc(size, page))
    ensures forall v :: page <= v < page + HeapBlocks.PagesWanted(h, size) ==> HeapBlocks.Unused(h, v)
  {
    hide HeapBlocks.Inv, HeapBlocks.PagesWanted;
  }

  lemma CoverKept(h: HeapBlocks.Heap, s: MemoryState.State, t: MemoryState.State)
    requires PagesCover(h, s) && forall v :: v in s.pages ==> v in t.pages
    ensures PagesCover(h, t)
  {
  }

  lemma MfreeCovers(w: World, e: Event)
    requires WorldOk(w) && Enabled(w, e) && e.Mfree?
    ensures PagesCover(Do(w, e).h, Do(w, e).s)
  {
    hide HeapBlocks.Inv, HeapBlocks.Settled, MemoryState.Inv, MemoryRuns.Runs, MemoryRuns.Run, PagesCover,
         HeapBlocks.DropLarge, HeapBlocks.PushChunk, MemoryState.ReleasePages;
    StepsRun(w, e);
    CallReady(w, e);
    TallyCount(w.h);
    ListCount(w.h);
    var a := e.block;
    if w.h.blocks[a].Large? {
      LargeRun(w.h, w.s, a);
      OneStep(w.s, MemoryRuns.Release(a / 4096, w.h.blocks[a].pages));
      DropUses(w.h, a, w.s, Do(w, e).s);
    } else {
      NoSteps(w.s);
      HeapBlocks.PushChunkKeeps(w.h, a);
      PushUses(w.h, a);
      SameUses(w.h, HeapBlocks.PushChunk(w.h, a), w.s);
    }
  }

  /** A step that frees none of kmalloc's pages leaves them in use. */
  lemma StepCovers(w: World, step: MemoryRuns.Step)
    requires WorldOk(w) && MemoryRuns.Enabled(w.s, step)
    requires step.Release? ==> OffHeap(w.h, step)
    ensures MemoryRuns.Runs(w.s, [step]) && PagesCover(w.h, MemoryRuns.Run(w.s, [step]))
  {
    hide HeapBlocks.Inv, HeapBlocks.Settled, MemoryState.Inv, MemoryRuns.Do, MemoryRuns.Enabled;
    OneStep(w.s, step);
    forall v | v in w.h.uses ensures v in MemoryRuns.Do(w.s, step).pages {
      PageStays(w.s, step, v);
    }
  }

  lemma PageStays(s: MemoryState.State, step: MemoryRuns.Step, v: int)
    requires MemoryState.Inv(s) && MemoryRuns.Enabled(s, step) && v in s.pages && !MemoryRuns.Releases(step, v)
    ensures v in MemoryRuns.Do(s, step).pages
  {
    hide MemoryState.Inv, MemoryState.CanReserve, MemoryState.ReservePages, MemoryState.ReleasePages;
    match step
    case Reserve(n) => MemoryState.ReservedPages(s, n, v);
    case Access(u) => MemoryState.TopInHeap(s);
    case Store(va, _) => MemoryState.TopInHeap(s);
    case _ =>
  }

  // ---- Runs --------------------------------------------------------------------

  ghost predicate Runs(w: World, events: seq<Event>)
    requires WorldOk(w)
    decreases |events|
  {
    events == [] || (Enabled(w, events[0]) && (DoKeeps(w, events[0]); Runs(Do(w, events[0]), events[1..])))
  }

  ghost function Run(w: World, events: seq<Event>): World
    requires WorldOk(w) && Runs(w, events)
    decreases |events|
  {
    if events == [] then w else DoKeeps(w, events[0]); Run(Do(w, events[0]), events[1..])
  }

  lemma {:induction false} RunKeeps(w: World, events: seq<Event>)
    requires WorldOk(w) && Runs(w, events)
    ensures WorldOk(Run(w, events))
    decreases |events|
  {
    hide WorldOk, Do, Enabled;
    if events != [] {
      DoKeeps(w, events[0]);
      RunKeeps(Do(w, events[0]), events[1..]);
    }
  }

  /** What a run does to frames and pages. */
  ghost function AllSteps(w: World, events: seq<Event>): seq<MemoryRuns.Step>
    requires WorldOk(w) && Runs(w, events)
    decreases |events|
  {
    if events == [] then []
    else
      StepsRun(w, events[0]);
      DoKeeps(w, events[0]);
      StepsOf(w, events[0]) + AllSteps(Do(w, events[0]), events[1..])
  }

  /** Seen from frames and pages a run is a run of MemoryRuns: so conservation of
      frames, the cost of tables, disjoint ranges and caught double frees hold of every
      run that mixes kmalloc with other clients. */
  lemma {:induction false} FrameView(w: World, events: seq<Event>)
    requires WorldOk(w) && Runs(w, events)
    ensures MemoryState.Inv(w.s) && MemoryRuns.Runs(w.s, AllSteps(w, events))
    ensures MemoryRuns.Run(w.s, AllSteps(w, events)) == Run(w, events).s
    decreases |events|
  {
    StatesOk(w);
    hide WorldOk, Enabled, StepsOf, MemoryState.Inv, MemoryRuns.Run, MemoryRuns.Runs;
    if events == [] {
      NoSteps(w.s);
    } else {
      var e := events[0];
      StepsRun(w, e);
      DoKeeps(w, e);
      StatesOk(Do(w, e));
      FrameView(Do(w, e), events[1..]);
      MemoryRuns.RunAppend(w.s, StepsOf(w, e), AllSteps(Do(w, e), events[1..]));
    }
  }

  lemma StatesOk(w: World)
    requires WorldOk(w)
    ensures MemoryState.Inv(w.s) && HeapBlocks.Inv(w.h) && HeapBlocks.Settled(w.h)
  {
  }

  /** The calls of kmalloc and kfree in a run. */
  ghost function Calls(w: World, events: seq<Event>): seq<HeapBlocks.Step>
    requires WorldOk(w) && Runs(w, events)
    decreases |events|
  {
    if events == [] then []
    else
      DoKeeps(w, events[0]);
      var rest := Calls(Do(w, events[0]), events[1..]);
      if events[0].Malloc? || events[0].Mfree? then [Call(w, events[0])] + rest else rest
  }

  /** Seen from the heap's blocks it is a run of HeapBlocks, so page counts, free lists
      and disjoint blocks are those proved there, whatever else happened. */
  lemma {:induction false} HeapView(w: World, events: seq<Event>)
    requires WorldOk(w) && Runs(w, events)
    ensures HeapBlocks.Inv(w.h) && HeapBlocks.Settled(w.h) && HeapBlocks.Runs(w.h, Calls(w, events))
    ensures HeapBlocks.Run(w.h, Calls(w, events)) == Run(w, events).h
    decreases |events|
  {
    StatesOk(w);
    if events != [] {
      var e := events[0];
      DoKeeps(w, e);
      HeapView(Do(w, e), events[1..]);
      if e.Malloc? || e.Mfree? {
        CallReady(w, e);
        HeapBlocks.DoKeeps(w.h, Call(w, e));
        assert Calls(w, events)[1..] == Calls(Do(w, e), events[1..]);
      }
    }
    hide WorldOk, Enabled, StepsOf, HeapBlocks.Inv, HeapBlocks.Settled, HeapBlocks.Do, HeapBlocks.Enabled,
         MemoryRuns.Run, MemoryState.Inv;
  }

  /** Both at once: after any mixed run no frame was lost, the tables are those that the
      heap top says, and a pool that served n requests took max(1, ceil(n / k)) pages. */
  lemma MixedRun(w: World, events: seq<Event>, i: nat)
    requires WorldOk(w) && Runs(w, events) && i < HeapBlocks.POOLS
    requires |w.h.tallies| == HeapBlocks.POOLS && w.h.tallies[i] == HeapBlocks.Tally(1, 0, 0)
    ensures var t := Run(w, events).s;
            && t.own.Keys == w.s.own.Keys && |t.tables| == 2 + MemoryState.TableCount(t.top - MemoryState.HEAP_BASE)
            && |t.own| == 1 + |t.pool.stack| + t.pool.unpooled + |t.tables| + |MemoryRuns.MappedPages(t)|
                + |MemoryRuns.HeldFrames(t)|
    ensures var g, n, k := Run(w, events).h, HeapBlocks.AllocsOf(Calls(w, events), i), HeapBlocks.ChunksPerPage(i);
            && i < |g.tallies| && g.tallies[i].pages == if n <= 1 then 1 else (n + k - 1) / k
  {
    hide WorldOk, HeapBlocks.Inv, HeapBlocks.Settled, MemoryState.Inv, MemoryRuns.Run, HeapBlocks.Run, Run,
         HeapBlocks.AllocsOf, HeapBlocks.ChunksPerPage, MemoryState.TableCount, MemoryRuns.MappedPages,
         MemoryRuns.HeldFrames;
    FrameView(w, events);
    MemoryRuns.RunKeepsInvariant(w.s, AllSteps(w, events));
    MemoryRuns.TablesCounted(Run(w, events).s);
    MemoryRuns.FramesAddUp(Run(w, events).s);
    HeapView(w, events);
    HeapBlocks.RunPageCount(w.h, Calls(w, events), i);
    TallyCount(Run(w, events).h);
  }

  // ---- Live blocks and what they hold ------------------------------------------

  predicate NeverFreed(events: seq<Event>, b: int) {
    forall k :: 0 <= k < |events| ==> events[k] != Mfree(b)
  }

  /** A live block stays as it is until it is freed itself. */
  lemma LiveStays(w: World, e: Event, b: int)
    requires WorldOk(w) && Enabled(w, e) && e != Mfree(b)
    requires b in w.h.blocks && !w.h.blocks[b].Free?
    ensures b in Do(w, e).h.blocks && Do(w, e).h.blocks[b] == w.h.blocks[b]
  {
    hide HeapBlocks.Inv, HeapBlocks.Settled, MemoryState.Inv, MemoryRuns.Run, MemoryRuns.Runs, StepsOf, HeapBlocks.Do;
    StepsRun(w, e);
    if e.Malloc? {
      CallReady(w, e);
      MallocLeaves(w.h, w.s, e.size, b);
    } else if e.Mfree? {
      CallReady(w, e);
      MfreeLeaves(w.h, e.block, b);
    }
  }

  lemma MallocLeaves(h: HeapBlocks.Heap, s: MemoryState.State, size: int, b: int)
    requires HeapBlocks.Inv(h) && HeapBlocks.Settled(h) && MemoryState.Inv(s) && PagesCover(h, s) && size > 0
    requires HeapBlocks.Enabled(h, HeapBlocks.Malloc(size, s.top))
    requires b in h.blocks && !h.blocks[b].Free?
    ensures var g := HeapBlocks.Do(h, HeapBlocks.Malloc(size, s.top)); b in g.blocks && g.blocks[b] == h.blocks[b]
  {
    hide HeapBlocks.Inv, HeapBlocks.Settled, MemoryState.Inv, HeapBlocks.Do, HeapBlocks.BestPool,
         HeapBlocks.PagesWanted, PagesCover, HeapBlocks.Avail, HeapBlocks.Chosen, HeapBlocks.Unused;
    TallyCount(h);
    HeapBlocks.BestPoolIsTight(size + HeapBlocks.HEADER);
    var i := HeapBlocks.BestPool(size + HeapBlocks.HEADER);
    TopUnused(h, s);
    NoBlockAt(h, s.top, b);
    if i == HeapBlocks.POOLS {
      PlanLarge(h, size, s.top);
      EnabledUnused(h, size, s.top);
      AddLargeLeaves(h, s.top, HeapBlocks.PagesWanted(h, size), size + HeapBlocks.HEADER, b);
    } else {
      PlanPooled(h, size, s.top);
      if HeapBlocks.Avail(h, i) == 0 { AddPageLeaves(h, i, s.top, b); }
    }
  }

  lemma NoBlockAt(h: HeapBlocks.Heap, v: int, b: int)
    requires HeapBlocks.Inv(h) && HeapBlocks.Unused(h, v) && b in h.blocks
    ensures b / 4096 != v
  {
    HeapBlocks.UnusedIsEmpty(h, v);
  }

  lemma AddLargeLeaves(h: HeapBlocks.Heap, v: int, n: nat, bytes: int, b: int)
    requires b in h.blocks && b / 4096 != v
    ensures var g := HeapBlocks.AddLarge(h, v, n, bytes); b in g.blocks && g.blocks[b] == h.blocks[b]
  {
    FrameAddress(v);
  }

  lemma AddPageLeaves(h: HeapBlocks.Heap, i: nat, v: int, b: int)
    requires HeapBlocks.Inv(h) && i < HeapBlocks.POOLS && HeapBlocks.Unused(h, v) && b in h.blocks && b / 4096 != v
    ensures var g := HeapBlocks.AddPage(h, i, v); b in g.blocks && g.blocks[b] == h.blocks[b]
  {
  }

  lemma MfreeLeaves(h: HeapBlocks.Heap, a: int, b: int)
    requires HeapBlocks.Inv(h) && HeapBlocks.Enabled(h, HeapBlocks.Mfree(a)) && a != b && b in h.blocks
    ensures var g := HeapBlocks.Do(h, HeapBlocks.Mfree(a)); b in g.blocks && g.blocks[b] == h.blocks[b]
  {
  }

  /** What an event makes of the word at `va`. */
  function Stored(e: Event, va: int, x: u64): u64 {
    if e.Payload? && e.va == va then e.word else x
  }

  function WordAfter(events: seq<Event>, va: int, x: u64): u64
    decreases |events|
  {
    if events == [] then x else WordAfter(events[1..], va, Stored(events[0], va, x))
  }

  predicate NoneStores(events: seq<Event>, va: int) {
    forall k :: 0 <= k < |events| ==> !(events[k].Payload? && events[k].va == va)
  }

  lemma {:induction false} UnstoredStays(events: seq<Event>, va: int, x: u64)
    requires NoneStores(events, va)
    ensures WordAfter(events, va, x) == x
    decreases |events|
  {
    if events != [] {
      assert !(events[0].Payload? && events[0].va == va);
      UnstoredStays(events[1..], va, x);
    }
  }

  /** Of several stores to a word the last one counts. */
  lemma {:induction false} LastStoreWins(events: seq<Event>, va: int, x: u64, k: nat)
    requires k < |events| && events[k].Payload? && events[k].va == va && NoneStores(events[k + 1..], va)
    ensures WordAfter(events, va, x) == events[k].word
    decreases k
  {
    var next := Stored(events[0], va, x);
    if k == 0 {
      UnstoredStays(events[1..], va, next);
    } else {
      assert events[1..][k - 1] == events[k] && events[1..][k..] == events[k + 1..];
      LastStoreWins(events[1..], va, next, k - 1);
    }
    hide NoneStores;
  }
}
