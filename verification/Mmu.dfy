/** vp_alloc.c: the kernel heap's page tables, built and edited in memory. */
module VirtualPages {
  import opened EntryBits
  import FramePool
  import opened Geometry
  import opened MachineWords
  import opened PhysicalMemory
  import opened FrameAllocation
  import opened MemoryState
  import opened PageTables
  import opened TableWalk
  import opened MemoryLayout

  lemma AvailableMeansTaken(s: State)
    requires Owned(s)
    ensures FramePool.Alloc(s.pool) != FramePool.Halt
    ensures FramePool.Available(s.pool) > 0 ==> FramePool.Alloc(s.pool).Taken?
  {
    FramePool.AllocOutcome(s.pool);
  }

  lemma ReleasedFields(s: State, v: int)
    requires v in s.pages
    ensures var t := ReleasePage(s, v);
            && t.tables == s.tables && t.top == s.top
            && t.pool == match s.pages[v] case Demand => s.pool case Mapped(f) => FramePool.Free(s.pool, f)
  {
  }

  /** The two fixed tables, once written, are those of the boot state. */
  lemma BootLayout(m: Memory, p: FramePool.Pool)
    requires FramePool.WellFormed(p) && FramePool.Available(p) >= 2
    requires var b := Boot(p);
             && PoolInMemory(m, b.pool)
             && p.base + p.unpooled <= |m| && (forall i :: 0 <= i < |p.stack| ==> p.stack[i] < |m|)
             && 0 <= b.tables[(4, 0)] < |m| && 0 <= b.tables[(3, 0)] < |m|
             && m[b.tables[(4, 0)]] == ZERO_FRAME[0 := 4096 * b.tables[(3, 0)] + TABLE_BITS]
             && (forall i :: 0 <= i < 512 ==> m[b.tables[(3, 0)]][i] == IDENTITY_ENTRY)
    ensures Layout(m, Boot(p)) && Contents(m, Boot(p)) == map[]
  {
    BootInv(p);
    FreshOwned(p);
    var b := Boot(p);
    assert FrameOk(b, 0);
    forall f ensures FrameInRam(m, b, f) {
      if f in b.own { assert f == 0 || FramePool.Owns(p, f) by { assert f in Fresh(p).own; } }
    }
    forall k, i ensures EntryAt(m, b, k, i) {
      if k in b.tables && k == (4, 0) { assert k.0 - 1 == 3 && 512 * k.1 + i == i; }
    }
  }

  /** Takes a frame from the allocator and clears it for use as a table. */
  method NewTable(ram: Ram, pf: FrameAllocator) returns (newPage: u64)
    requires pf.ram == ram && pf.Valid() && FramePool.Alloc(pf.pool).Taken?
    modifies ram, pf
    ensures pf.Valid() && pf.pool == FramePool.Alloc(old(pf.pool)).rest
    ensures newPage == 4096 * FramePool.Alloc(old(pf.pool)).frame && IsFrame(ram.frames, newPage)
    ensures newPage / 4096 == FramePool.Alloc(old(pf.pool)).frame && newPage % 4096 / 8 == 0 && newPage % 8 == 0
    ensures OnlyPoolTouched(old(ram.frames), ram.frames, old(pf.pool))
    ensures ram.frames[newPage / 4096] == ZERO_FRAME
  {
    InRamOfPool(ram.frames, pf.pool);
    FramePool.AllocConserves(pf.pool);
    FrameAddress(FramePool.Alloc(pf.pool).frame);
    newPage := pf.Alloc();
    ghost var m := ram.frames;
    ram.ZeroFrame(newPage);
    PoolUntouched(m, ram.frames, pf.pool);
    hide PoolInMemory, FramePool.WellFormed, FramePool.Alloc;
  }

  /** Makes an entry point at a frame, present and writeable. */
  method WriteTableEntry(ram: Ram, entryPtr: int, newPage: u64)
    requires InRam(ram.frames, entryPtr) && IsFrame(ram.frames, newPage) && |ram.frames| <= MAX_FRAMES
    modifies ram
    ensures ram.frames == Put(old(ram.frames), entryPtr / 4096, entryPtr % 4096 / 8, newPage + TABLE_BITS)
  {
    ghost var m, f, i := ram.frames, entryPtr / 4096, entryPtr % 4096 / 8;
    PresentFrame(newPage);
    PutTwice(m, f, i, newPage, newPage + TABLE_BITS);
    ram.Store(entryPtr, newPage);
    assert ram.frames[f][i] == newPage;
    var entry := ram.Load(entryPtr);
    ram.Store(entryPtr, SetPresent(entry));
    hide SetPresent, Put;
  }

  class Mmu {
    const ram: Ram
    const pf: FrameAllocator
    var l4Table: u64
    var kernHeapTop: u64
    ghost var st: State

    /** Everything but kern_heap_top is in step with the state. */
    ghost predicate TablesValid(low: int)
      reads `st, `l4Table, ram, pf
    {
      && pf.ram == ram && pf.pool == st.pool
      && Layout(ram.frames, st) && ShapeDownTo(st, low)
      && (4, 0) in st.tables && l4Table == 4096 * st.tables[(4, 0)]
    }

    ghost predicate Valid()
      reads this, ram, pf
    {
      TablesValid(4) && Inv(st) && kernHeapTop == 4096 * st.top
    }

    /** The contents of the mapped heap pages. */
    ghost function Heap(): map<int, Frame>
      reads `st, ram
    {
      Contents(ram.frames, st)
    }

    /** MMU_init_vp and setup_identity_paging */
    constructor (ram: Ram, pf: FrameAllocator)
      requires pf.ram == ram && pf.Valid()
      requires FramePool.Available(pf.pool) >= 2
      modifies ram, pf
      ensures Valid() && this.ram == ram && this.pf == pf
      ensures st == Boot(old(pf.pool)) && Heap() == map[]
    {
      this.ram := ram;
      this.pf := pf;
      new;
      BootInv(pf.pool);
      l4Table, st := InitTables(ram, pf);
      kernHeapTop := 0x100_0000_0000;
    }

    /** The body of alloc_virtual_page's loop: a fresh, zeroed table behind the entry. */
    method LinkNewTable(entryPtr: int, ghost level: int)
      requires 1 <= level <= 3 && TablesValid(level + 1) && st.top < HEAP_LIMIT
      requires OnPath(level, st.top) !in st.tables && OnPath(level + 1, st.top) in st.tables
      requires entryPtr == EntryPtr(st, level + 1, st.top)
      requires FramePool.Available(st.pool) > 0
      modifies this`st, ram, pf
      ensures FramePool.Alloc(old(st.pool)).Taken?
      ensures TablesValid(level)
      ensures st == AddTable(old(st), level, old(st.top))
      ensures Heap() == old(Heap())
      ensures OffPathKept(old(ram.frames), ram.frames, old(st), st, old(st.top))
      ensures HeldKept(old(ram.frames), ram.frames, old(st), st, 0)
    {
      ghost var s, m := st, ram.frames;
      ghost var p, i := s.tables[OnPath(level + 1, s.top)], EntryIndex(level + 1, s.top);
      AvailableMeansTaken(s);
      NextFrameIsFree(m, s);
      EntryPtrParts(m, s, level + 1, s.top);
      assert OnPath(4, s.top) == (4, 0);
      var newPage := NewTable(ram, pf);
      ghost var z := ram.frames;
      LinkRound(m, z, s, level);
      LinkOffPath(m, z, s, level, newPage + TABLE_BITS);
      ghost var t := AddTable(s, level, s.top);
      HeldLink(m, z, s, t, t.own[NextFrame(s)], OnPath(level + 1, s.top), i, newPage + TABLE_BITS);
      WriteTableEntry(ram, entryPtr, newPage);
      st := AddTable(s, level, s.top);
      hide Layout, ShapeDownTo, HeldKept;
    }

    /** alloc_virtual_page(kern_heap_top, on demand) */
    method AllocVirtualPage(va: u64)
      requires TablesValid(4) && Inv(st) && va == 4096 * st.top
      requires st.top < HEAP_LIMIT && FramePool.Available(st.pool) >= NewTables(st.top)
      modifies this`st, ram, pf
      ensures TablesValid(4) && Inv(st)
      ensures LowestTable(old(st.tables), old(st.top)) - 1 == NewTables(old(st.top))
      ensures st == ReservePage(old(st)) && st.top == old(st.top) + 1
      ensures Heap() == old(Heap())
      ensures OffPathKept(old(ram.frames), ram.frames, old(st), st, old(st.top))
      ensures HeldKept(old(ram.frames), ram.frames, old(st), st, 0)
    {
      hide Layout, ShapeDownTo, LowestPresentPage, EntryPtr, LowestTable, OnPath, Contents, AddTable, Inv, Owned,
           OffPathKept, HeldKept;
      ghost var s, v, heap, m := st, st.top, Heap(), ram.frames;
      OffPathSame(m, s, v);
      HeldSame(m, s);
      ghost var low := LowestTable(s.tables, v);
      LayoutFacts(ram.frames, st);
      WalkIn(ram.frames, st, 4, v);
      ReservePageKeeps(s);
      MissingTables(s);
      var walk := LowestPresentPage(ram.frames, l4Table, va);
      assert walk.level != 0;
      while walk.level != 1
        invariant 1 <= walk.level <= 4 && walk.level == LowestTable(st.tables, v)
        invariant TablesValid(walk.level)
        invariant OnPath(walk.level, v) in st.tables && walk.ptr == EntryPtr(st, walk.level, v)
        invariant FramePool.Available(st.pool) >= walk.level - 1
        invariant Owned(st) && st.pool.stack != []
        invariant AddTables(st, walk.level, v) == AddTables(s, low, v)
        invariant st.top == s.top && v !in st.pages
        invariant Heap() == heap
        invariant OffPathKept(m, ram.frames, s, st, v)
        invariant HeldKept(m, ram.frames, s, st, 0)
        decreases walk.level
      {
        ghost var level, m1, s1 := walk.level, ram.frames, st;
        AddTablesRound(st, level);
        LinkNewTable(walk.ptr, level - 1);
        OffPathThen(m, m1, ram.frames, s, s1, st, v);
        HeldThen(m, m1, ram.frames, s, s1, st);
        LayoutFacts(ram.frames, st);
        WalkIn(ram.frames, st, level - 1, v);
        walk := LowestPresentPage(ram.frames, l4Table, va);
      }
      ghost var m2, s2 := ram.frames, st;
      ReserveEntry(walk.ptr);
      OffPathThen(m, m2, ram.frames, s, s2, st, v);
      HeldThen(m, m2, ram.frames, s, s2, st);
    }

    /** MMU_alloc_pages.  Address space and frames for the tables must suffice: the
        callee does not look for NULL. */
    method AllocPages(num: nat) returns (ret: u64)
      requires Valid() && CanReserve(st, num)
      modifies this, ram, pf
      ensures Valid()
      ensures ret == 4096 * old(st.top)
      ensures st == ReservePages(old(st), num)
      ensures Heap() == old(Heap())
      ensures HeldKept(old(ram.frames), ram.frames, old(st), st, 0)
    {
      hide TablesValid, Inv, CanReserve, Contents, ReservePages, ReservePage, HeldKept, OffPathKept;
      ghost var s, heap, m := st, Heap(), ram.frames;
      HeldSame(m, s);
      ReserveNone(s);
      ret := kernHeapTop;
      var i := 0;
      while i < num
        invariant 0 <= i <= num && Valid()
        invariant CanReserve(s, i) && st == ReservePages(s, i)
        invariant Heap() == heap
        invariant HeldKept(m, ram.frames, s, st, 0)
      {
        ghost var m1, s1 := ram.frames, st;
        ReserveNext(s, num, i);
        AllocVirtualPage(kernHeapTop);
        HeldThen(m, m1, ram.frames, s, s1, st);
        kernHeapTop := kernHeapTop + 4096;
        i := i + 1;
      }
    }

    /** MMU_free_pages.  False where an assert stops the machine; the pages before
        that one are then already released. */
    method FreePages(vp: u64, num: nat) returns (ok: bool)
      requires Valid()
      requires 0x80_0000_0000 <= vp < 0x1_0000_0000_0000
      modifies this`st, ram, pf
      ensures Valid()
      ensures ok <==> vp % 4096 == 0 && num > 0 && forall v :: vp / 4096 <= v < vp / 4096 + num ==> v in old(st).pages
      ensures vp % 4096 == 0 ==> st == ReleasePages(old(st), vp / 4096, Releasable(old(st), vp / 4096, num))
      ensures vp % 4096 != 0 ==> st == old(st)
      ensures forall v :: v in Heap() <==> v in old(Heap()) && v in st.pages
      ensures forall v :: v in Heap() ==> Heap()[v] == old(Heap())[v]
      ensures HeldKept(old(ram.frames), ram.frames, old(st), st, 0)
    {
      hide TablesValid, Inv, Contents, Releasable, ReleasePages, ReleasePage, HeldKept;
      ghost var s, heap, first, m := st, Heap(), vp / 4096, ram.frames;
      HeldSame(m, s);
      HeapPages();
      assert HEAP_LIMIT == 0x8_0000_0000;
      ReleaseNone(s, first);
      if vp % 4096 != 0 || num == 0 {
        return false;
      }
      var nextToFree := vp;
      var i := 0;
      while i < num
        invariant 0 <= i <= num && Valid()
        invariant nextToFree == vp + 4096 * i && nextToFree < 0x1_0000_0000_0000
        invariant i <= Releasable(s, first, num) && st == ReleasePages(s, first, i)
        invariant forall v :: v in Heap() <==> v in heap && v in st.pages
        invariant forall v :: v in Heap() ==> Heap()[v] == heap[v]
        invariant HeldKept(m, ram.frames, s, st, 0)
      {
        ghost var m1, s1 := ram.frames, st;
        ReleaseNext(s, first, num, i);
        PageInHeap(nextToFree / 4096);
        var freed := FreeOne(nextToFree);
        HeldThen(m, m1, ram.frames, s, s1, st);
        if !freed {
          return false;
        }
        nextToFree := nextToFree + 4096;
        i := i + 1;
      }
      return true;
    }

    /** One round of MMU_free_pages' loop. */
    method FreeOne(va: u64) returns (ok: bool)
      requires Valid() && va % 4096 == 0 && 0x80_0000_0000 <= va < 0x1_0000_0000_0000
      modifies this`st, ram, pf
      ensures Valid()
      ensures ok <==> va / 4096 in old(st).pages
      ensures st == if ok then ReleasePage(old(st), va / 4096) else old(st)
      ensures Heap() == if ok then old(Heap()) - {va / 4096} else old(Heap())
      ensures HeldKept(old(ram.frames), ram.frames, old(st), st, 0)
    {
      ghost var s, m, v := st, ram.frames, va / 4096;
      assert va == 4096 * v;
      PageInHeap(v);
      if v < HEAP_LIMIT { WalkIn(m, s, 4, v); } else { UpperHalfIn(m, s, va); }
      hide Layout, Inv, Owned, ShapeDownTo, Contents, ReleasePage, EntryPtr, OnPath, LowestPresentPage,
           LowestTable, HeldKept;
      HeldSame(m, s);
      var walk := LowestPresentPage(ram.frames, l4Table, va);
      if walk.level == 0 {
        ClearMapped(walk, v);
        ok := true;
      } else if walk.level == 1 {
        ok := ClearReserved(walk, v);
      } else {
        ok := false;
      }
    }

    lemma PageInHeap(v: int)
      requires Valid()
      ensures v in st.pages ==> 0x1000_0000 <= v < 0x8_0000_0000
    {
      hide Layout, ShapeDownTo;
      HeapOnly(st, v);
    }

    /** The case of an entry that is not present: it must be on demand. */
    method ClearReserved(walk: Walk, ghost v: int) returns (ok: bool)
      requires Valid() && 0x800_0000 <= v < HEAP_LIMIT && !IsMapped(st, v) && OnPath(1, v) in st.tables
      requires walk.ptr == EntryPtr(st, 1, v)
      modifies this`st, ram, pf
      ensures Valid()
      ensures ok <==> v in old(st).pages
      ensures st == if ok then ReleasePage(old(st), v) else old(st)
      ensures Heap() == if ok then old(Heap()) - {v} else old(Heap())
      ensures HeldKept(old(ram.frames), ram.frames, old(st), st, 0)
    {
      ghost var s, m := st, ram.frames;
      HeldSame(m, s);
      EntryPtrParts(m, s, 1, v);
      PathEntryOk(m, s, 1, v);
      var entry := ram.Load(walk.ptr);
      if !IsDemand(entry) || entry % 4 != 0 {
        return false;
      }
      ram.Store(walk.ptr, ClearDemand(entry));
      ReleaseLayout(m, ram.frames, ram.frames, s, v, 0);
      ReleasePageKeeps(s, v);
      st := ReleasePage(s, v);
      HeldEntry(m, s, st, OnPath(1, v), EntryIndex(1, v), 0);
      hide HeldKept, Layout, Inv, Contents, ReleasePage, EntryPtr, EntryIndex, OnPath, Owned, ShapeDownTo;
      return true;
    }

    /** The mapped case: flags off, frame back to MMU_pf_free. */
    method ClearMapped(walk: Walk, ghost v: int)
      requires Valid() && 0x800_0000 <= v < HEAP_LIMIT && IsMapped(st, v) && OnPath(1, v) in st.tables
      requires walk == Walk(0, 4096 * st.pages[v].frame, EntryPtr(st, 1, v))
      modifies this`st, ram, pf
      ensures Valid()
      ensures st == ReleasePage(old(st), v)
      ensures Heap() == old(Heap()) - {v}
      ensures HeldKept(old(ram.frames), ram.frames, old(st), st, 0)
    {
      ghost var s, m, f := st, ram.frames, st.pages[v].frame;
      MappedEntry(m, s, v);
      FrameAddress(f);
      LeadsBits(ram.frames[st.tables[OnPath(1, v)]][EntryIndex(1, v)], f);
      ghost var cleared := ClearPresent(ram.frames[st.tables[OnPath(1, v)]][EntryIndex(1, v)]);
      hide Layout, Inv, Contents, ReleasePage, EntryPtr, EntryIndex, OnPath, IsPresent, FramePool.Owns,
           FramePool.Free, ClearPresent, PoolInMemory, ShapeDownTo, HeldKept;
      var entry := ram.Load(walk.prev);
      ram.Store(walk.prev, ClearPresent(entry));
      ghost var m1 := ram.frames;
      pf.Free(walk.ptr);
      ReleaseLayout(m, m1, ram.frames, s, v, cleared);
      ReleasePageKeeps(s, v);
      ReleasedFields(s, v);
      st := ReleasePage(s, v);
      HeldClear(m, m1, ram.frames, s, st, v, OnPath(1, v), EntryIndex(1, v), cleared);
    }

    /** The pages with contents are the mapped ones. */
    lemma HeapPages()
      requires Valid()
      ensures Inv(st) && st.pool.stack != [] && 0x1000_0000 <= st.top <= 0x8_0000_0000
      ensures forall v :: v in Heap() <==> IsMapped(st, v)
      ensures forall v :: v in Heap() ==> 0x1000_0000 <= v < st.top && v in st.pages && st.pages[v].Mapped?
    {
      forall v ensures v in Heap() <==> IsMapped(st, v) {
        if IsMapped(st, v) { MappedInRam(ram.frames, st, v); }
      }
      forall v | v in Heap() ensures 0x1000_0000 <= v < st.top && v in st.pages && st.pages[v].Mapped? {
        assert PageOk(st, v);
      }
      hide Inv, Layout;
    }

    /** page_fault_handler for a fault at `faultAddr` (CR2).  False where the handler
        gives up and halts.  The frame count is not checked by the handler. */
    method PageFaultHandler(faultAddr: u64) returns (handled: bool)
      requires Valid() && (0x80_0000_0000 <= faultAddr < 0x8000_0000_0000 || 0xFFFF_8000_0000_0000 <= faultAddr)
      requires faultAddr / 4096 in st.pages && st.pages[faultAddr / 4096] == Demand ==> FramePool.Available(st.pool) > 0
      modifies this`st, ram, pf
      ensures Valid()
      ensures handled <==> faultAddr / 4096 in old(st).pages && old(st).pages[faultAddr / 4096] == Demand
      ensures handled ==> FramePool.Alloc(old(st).pool).Taken? && st == FaultIn(old(st), faultAddr / 4096)
      ensures handled ==> faultAddr / 4096 in Heap() && faultAddr / 4096 !in old(Heap())
                          && Heap() == old(Heap())[faultAddr / 4096 := Heap()[faultAddr / 4096]]
      ensures !handled ==> st == old(st) && Heap() == old(Heap())
      ensures HeldKept(old(ram.frames), ram.frames, old(st), st, 0)
    {
      var va := faultAddr - faultAddr % 4096;
      ghost var s, m, v := st, ram.frames, faultAddr / 4096;
      assert va == 4096 * v;
      PageInHeap(v);
      if faultAddr < 0x8000_0000_0000 {
        WalkIn(m, s, 4, v);
        EntryReadable(m, s, v);
      } else {
        UpperIndex(faultAddr);
        UpperHalfIn(m, s, va);
      }
      hide Layout, ShapeDownTo, LowestPresentPage, EntryPtr, LowestTable, HeldKept;
      HeldSame(m, s);
      var walk := LowestPresentPage(ram.frames, l4Table, va);
      var entry := ram.Load(walk.ptr);
      if !IsDemand(entry) || walk.level != 1 {
        return false;
      }
      InstallFrame(walk.ptr, v);
      return true;
    }

    /** The tail of page_fault_handler. */
    method InstallFrame(entryPtr: int, ghost v: int)
      requires Valid() && 0x800_0000 <= v < HEAP_LIMIT && OnPath(1, v) in st.tables
      requires v in st.pages && st.pages[v] == Demand && FramePool.Available(st.pool) > 0
      requires entryPtr == EntryPtr(st, 1, v)
      modifies this`st, ram, pf
      ensures Valid()
      ensures FramePool.Alloc(old(st).pool).Taken? && st == FaultIn(old(st), v)
      ensures v in Heap() && v !in old(Heap()) && Heap() == old(Heap())[v := Heap()[v]]
      ensures HeldKept(old(ram.frames), ram.frames, old(st), st, 0)
    {
      ghost var s, m := st, ram.frames;
      AvailableMeansTaken(s);
      EntryPtrParts(m, s, 1, v);
      NextFrameIsFree(m, s);
      FaultInKeeps(s, v);
      var newPage := pf.Alloc();
      FaultLayout(m, ram.frames, s, v);
      HeldLink(m, ram.frames, s, FaultIn(s, v), Data(v), OnPath(1, v), EntryIndex(1, v), newPage + TABLE_BITS);
      WriteTableEntry(ram, entryPtr, newPage);
      st := FaultIn(s, v);
      hide Layout, Inv, HeldKept;
    }

    lemma HeapHas(v: int)
      requires Valid() && IsMapped(st, v)
      ensures v in Heap() && Heap() == Heap()[v := Heap()[v]]
    {
      MappedInRam(ram.frames, st, v);
    }

    /** The page is mapped after the access that a client or the kernel makes to it:
        the hardware translates, faults at most once and translates again. */
    method Touch(va: u64) returns (physical: u64)
      requires Valid() && va / 4096 in st.pages
      requires st.pages[va / 4096] == Demand ==> FramePool.Available(st.pool) > 0
      modifies this`st, ram, pf
      ensures Valid()
      ensures st == Touched(old(st), va / 4096)
      ensures va / 4096 in Heap() && Heap() == old(Heap())[va / 4096 := Heap()[va / 4096]]
      ensures old(st).pages[va / 4096].Mapped? ==> Heap() == old(Heap())
      ensures IsMapped(st, va / 4096) && physical == 4096 * st.pages[va / 4096].frame + va % 4096
      ensures HeldKept(old(ram.frames), ram.frames, old(st), st, 0)
    {
      ghost var s, m, v := st, ram.frames, va / 4096;
      hide HeldKept;
      HeldSame(m, s);
      TouchRange(s, v);
      HardwareIn(m, s, va);
      var translation := HwTranslate(ram.frames, l4Table, 4, va);
      if translation.PageFault? {
        var handled := PageFaultHandler(va);
        HardwareIn(ram.frames, st, va);
        translation := HwTranslate(ram.frames, l4Table, 4, va);
      } else {
        HeapHas(v);
      }
      physical := translation.address;
    }

    /** A store through a heap address; `before` is what the page held, which for a
        page just faulted in is whatever the frame held last. */
    method WriteWord(va: u64, x: u64) returns (ghost before: Frame)
      requires Valid() && va % 8 == 0 && va / 4096 in st.pages
      requires st.pages[va / 4096] == Demand ==> FramePool.Available(st.pool) > 0
      modifies this`st, ram, pf
      ensures Valid()
      ensures st == Touched(old(st), va / 4096)
      ensures va / 4096 in old(Heap()) ==> before == old(Heap())[va / 4096]
      ensures Heap() == old(Heap())[va / 4096 := before[va % 4096 / 8 := x]]
      ensures HeldKept(old(ram.frames), ram.frames, old(st), st, 0)
    {
      ghost var m0, s0 := ram.frames, st;
      var physical := Touch(va);
      ghost var m, v := ram.frames, va / 4096;
      before := Heap()[v];
      ClientStore(m, st, va, x);
      HeldClient(m, st, v, va % 4096 / 8, x);
      hide Layout, Inv, ShapeDownTo, Contents, Put, Touched, HeldKept;
      ram.Store(physical, x);
      HeldThen(m0, m, ram.frames, s0, st, st);
    }

    /** A load through a heap address. */
    method ReadWord(va: u64) returns (x: u64)
      requires Valid() && va % 8 == 0 && va / 4096 in st.pages
      requires st.pages[va / 4096] == Demand ==> FramePool.Available(st.pool) > 0
      modifies this`st, ram, pf
      ensures Valid()
      ensures st == Touched(old(st), va / 4096)
      ensures va / 4096 in Heap() && Heap() == old(Heap())[va / 4096 := Heap()[va / 4096]]
      ensures va / 4096 in old(Heap()) ==> Heap() == old(Heap())
      ensures x == Heap()[va / 4096][va % 4096 / 8]
      ensures HeldKept(old(ram.frames), ram.frames, old(st), st, 0)
    {
      hide HeldKept;
      var physical := Touch(va);
      MappedInRam(ram.frames, st, va / 4096);
      PhysicalParts(st.pages[va / 4096].frame, va);
      x := ram.Load(physical);
    }

    /** A direct caller of MMU_pf_alloc. */
    method AllocFrame() returns (p: u64)
      requires Valid()
      modifies this`st, ram, pf
      ensures Valid()
      ensures st == MemoryState.AllocFrame(old(st))
      ensures FramePool.Available(old(st).pool) == 0 <==> p == 0
      ensures p != 0 ==> p % 4096 == 0 && p / 4096 in st.own && st.own[p / 4096] == Held
                         && p / 4096 in old(st).own && old(st).own[p / 4096] == Pooled
      ensures Heap() == old(Heap())
      ensures HeldKept(old(ram.frames), ram.frames, old(st), st, 0)
    {
      ghost var s, m := st, ram.frames;
      LayoutFacts(m, s);
      FramePool.AllocOutcome(s.pool);
      AllocFrameKeeps(s);
      if FramePool.Alloc(s.pool).Taken? { NextFrameIsFree(m, s); }
      p := pf.Alloc();
      AllocKeepsRest(m, ram.frames, s);
      ghost var t := MemoryState.AllocFrame(s);
      RelabelTables(ram.frames, s, t);
      assert forall v :: IsMapped(t, v) <==> IsMapped(s, v);
      if FramePool.Alloc(s.pool).Taken? {
        HeldTake(m, ram.frames, s, t, Held);
      } else {
        HeldNone(m, ram.frames, s);
      }
      st := t;
    }

    /** A direct caller of MMU_pf_free gives back a frame it holds. */
    method FreeFrame(p: u64)
      requires Valid() && p % 4096 == 0 && p / 4096 in st.own && st.own[p / 4096] == Held
      modifies this`st, ram, pf
      ensures Valid()
      ensures st == MemoryState.FreeFrame(old(st), p / 4096)
      ensures Heap() == old(Heap())
      ensures HeldKept(old(ram.frames), ram.frames, old(st), st, p / 4096)
    {
      ghost var s, m, f := st, ram.frames, p / 4096;
      HeldFrame(m, s, f);
      FreeFrameKeeps(s, f);
      ghost var t := MemoryState.FreeFrame(s, f);
      pf.Free(p);
      FreeKeepsRest(m, ram.frames, s, f);
      HeldGive(m, ram.frames, s, t, f, f);
      st := t;
    }

    /** A direct caller's store into a frame it holds. */
    method WriteFrame(p: u64, i: int, x: u64)
      requires Valid() && p % 4096 == 0 && p / 4096 in st.own && st.own[p / 4096] == Held && 0 <= i < 512
      modifies ram
      ensures Valid() && Heap() == old(Heap())
      ensures p / 4096 < |old(ram.frames)| && ram.frames == Put(old(ram.frames), p / 4096, i, x)
      ensures HeldKept(old(ram.frames), ram.frames, st, st, p / 4096)
    {
      HeldWrite(ram.frames, st, p / 4096, i, x);
      ram.Set(p, i, x);
    }

    /** The processor, using entry `i` of the table in frame `f`, marks it accessed or
        dirty.  It does so to present entries, at any time. */
    method ProcessorMarks(f: nat, i: nat, marks: int)
      requires Valid() && f in st.own && st.own[f].Table? && i < 512 && Marks(marks)
      modifies ram
      ensures Valid() && Heap() == old(Heap())
      ensures f < |old(ram.frames)|
      ensures ram.frames == if IsPresent(old(ram.frames)[f][i])
                            then Put(old(ram.frames), f, i, Remark(old(ram.frames)[f][i], marks)) else old(ram.frames)
      ensures HeldKept(old(ram.frames), ram.frames, st, st, 0)
    {
      ghost var m, s := ram.frames, st;
      HeldSame(m, s);
      TableOf(m, s, f);
      MarkLayout(m, s, (s.own[f].level, s.own[f].prefix), i, marks);
      FrameAddress(f);
      hide Layout, Inv, ShapeDownTo, HeldKept, Contents, Put, Remark, IsPresent;
      var entry := ram.Get(4096 * f, i);
      if IsPresent(entry) {
        ram.Set(4096 * f, i, Remark(entry, marks));
      }
    }

    /** The tail of alloc_virtual_page: mark the level-1 entry on demand. */
    method ReserveEntry(entryPtr: int)
      requires TablesValid(1) && st.top < HEAP_LIMIT
      requires OnPath(1, st.top) in st.tables && entryPtr == EntryPtr(st, 1, st.top)
      modifies this`st, ram
      ensures TablesValid(4)
      ensures st == old(st).(pages := old(st.pages)[old(st.top) := Demand], top := old(st.top) + 1)
      ensures Heap() == old(Heap())
      ensures OffPathKept(old(ram.frames), ram.frames, old(st), st, old(st.top))
      ensures HeldKept(old(ram.frames), ram.frames, old(st), st, 0)
    {
      ghost var s, v, m := st, st.top, ram.frames;
      ghost var t := s.(pages := s.pages[v := Demand], top := v + 1);
      ReserveShape(s);
      EntryPtrParts(m, s, 1, v);
      PathEntryOk(m, s, 1, v);
      var entry := ram.Load(entryPtr);
      assert entry == 0 && !IsDemand(entry);
      ram.Store(entryPtr, SetDemand(entry));
      EntryWrite(m, s, t, v, DEMAND_BIT);
      ReserveOffPath(m, s, t, v, DEMAND_BIT);
      HeldEntry(m, s, t, OnPath(1, v), EntryIndex(1, v), DEMAND_BIT);
      st := t;
      assert v !in Contents(m, s) && v !in Heap();
    }
  }

  /** Root indices of the canonical upper half. */
  lemma UpperIndex(va: u64)
    requires 0xFFFF_8000_0000_0000 <= va
    ensures 256 <= (va - va % 4096) / 0x80_0000_0000 % 512
  {
    var a := va - va % 4096;
    assert 0xFFFF_8000_0000_0000 <= a;
    assert 0x1FF_FF00 <= a / 0x80_0000_0000 < 0x200_0000;
  }

  lemma InRamOfPool(m: Memory, p: FramePool.Pool)
    requires PoolInMemory(m, p)
    ensures |m| <= MAX_FRAMES && FramePool.WellFormed(p) && p.base + p.unpooled <= |m|
    ensures forall i :: 0 <= i < |p.stack| ==> p.stack[i] < |m|
    ensures forall f :: FramePool.Owns(p, f) ==> 0 < f < |m|
  {
    forall i | 0 <= i < |p.stack| ensures p.stack[i] < |m| {
      assert ([0] + p.stack)[i + 1] == p.stack[i];
      assert FrameRing.LinkAt(m, [0] + p.stack, i + 1);
    }
  }

  /** The two frames that start-up takes. */
  lemma BootFrames(m: Memory, p: FramePool.Pool)
    requires PoolInMemory(m, p) && FramePool.Available(p) >= 2
    ensures FramePool.Alloc(p).Taken? && FramePool.Alloc(FramePool.Alloc(p).rest).Taken?
    ensures var f, q := FramePool.Alloc(p).frame, FramePool.Alloc(p).rest;
            var g, r := FramePool.Alloc(q).frame, FramePool.Alloc(q).rest;
            && 0 < f < |m| && 0 < g < |m| && f != g
            && !FramePool.Owns(q, f) && !FramePool.Owns(r, f) && !FramePool.Owns(r, g)
            && Boot(p).pool == r && Boot(p).tables == map[(4, 0) := f, (3, 0) := g]
  {
    FramePool.AllocOutcome(p);
    FramePool.AllocConserves(p);
    var q := FramePool.Alloc(p).rest;
    FramePool.AllocOutcome(q);
    FramePool.AllocConserves(q);
    InRamOfPool(m, p);
    assert FramePool.Owns(q, FramePool.Alloc(q).frame);
  }

  /** MMU_init_vp's writes to memory. */
  method InitTables(ram: Ram, pf: FrameAllocator) returns (l4Table: u64, ghost st: State)
    requires pf.ram == ram && pf.Valid()
    requires FramePool.Available(pf.pool) >= 2
    modifies ram, pf
    ensures st == Boot(old(pf.pool)) && pf.pool == st.pool
    ensures Layout(ram.frames, st) && Contents(ram.frames, st) == map[]
    ensures (4, 0) in st.tables && l4Table == 4096 * st.tables[(4, 0)]
  {
    hide Boot, Layout, PoolInMemory, FramePool.Alloc, FramePool.WellFormed, FramePool.Owns, Contents;
    ghost var p := pf.pool;
    InRamOfPool(ram.frames, p);
    BootFrames(ram.frames, p);
    st := Boot(p);
    l4Table := NewTable(ram, pf);
    var l3Table := NewTable(ram, pf);
    ghost var z := ram.frames;
    WriteTableEntry(ram, l4Table, l3Table);
    FillIdentity(ram, l3Table);
    PoolUntouched(z, ram.frames, pf.pool);
    BootLayout(ram.frames, p);
  }

  /** setup_identity_paging's loop */
  method FillIdentity(ram: Ram, l3Table: u64)
    requires IsFrame(ram.frames, l3Table)
    modifies ram
    ensures |ram.frames| == |old(ram.frames)|
    ensures forall g :: 0 <= g < |ram.frames| && g != l3Table / 4096 ==> ram.frames[g] == old(ram.frames)[g]
    ensures forall j :: 0 <= j < 512 ==> ram.frames[l3Table / 4096][j] == IDENTITY_ENTRY
  {
    var i := 0;
    while i < 512
      invariant 0 <= i <= 512 && |ram.frames| == |old(ram.frames)|
      invariant forall g :: 0 <= g < |ram.frames| && g != l3Table / 4096 ==> ram.frames[g] == old(ram.frames)[g]
      invariant forall j :: 0 <= j < i ==> ram.frames[l3Table / 4096][j] == IDENTITY_ENTRY
    {
      ram.Set(l3Table, i, IDENTITY_ENTRY);
      i := i + 1;
    }
  }
}
