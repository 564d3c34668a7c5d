/** How each write of the kernel and of its clients changes the one physical memory
    while ring, tables and mapped pages all stay in place. */
module MemoryLayout {
  import opened EntryBits
  import opened Geometry
  import opened MachineWords
  import opened PhysicalMemory
  import opened FramePool
  import opened FrameRing
  import opened FrameAllocation
  import opened MemoryState
  import opened PageTables
  import opened TableWalk

  /** Every structure of the state lies where the state says. */
  ghost predicate Layout(m: Memory, s: State) {
    Owned(s) && PoolInMemory(m, s.pool) && TablesInMemory(m, s)
  }

  /** What the heap pages hold: the contents of the mapped ones. */
  ghost function Contents(m: Memory, s: State): map<int, Frame> {
    map v | v in s.pages && IsMapped(s, v) && 0 <= s.pages[v].frame < |m| :: m[s.pages[v].frame]
  }

  lemma PoolUntouched(m: Memory, m': Memory, p: Pool)
    requires PoolInMemory(m, p) && |m'| == |m|
    requires m'[0] == m[0] && forall f :: Owns(p, f) && 0 <= f < |m| ==> m'[f] == m[f]
    ensures PoolInMemory(m', p)
  {
    var c := [0] + p.stack;
    forall i | 0 <= i < |c| ensures LinkAt(m', c, i) {
      assert LinkAt(m, c, i);
      if i > 0 { assert c[i] == p.stack[i - 1]; }
    }
  }

  /** A write into one frame that is neither pooled nor frame 0. */
  lemma WriteOffPool(m: Memory, m': Memory, s: State, f: int)
    requires Owned(s) && PoolInMemory(m, s.pool)
    requires f in s.own && s.own[f] != Pooled && s.own[f] != Meta
    requires |m'| == |m| && forall g :: 0 <= g < |m| && g != f ==> m'[g] == m[g]
    ensures PoolInMemory(m', s.pool)
  {
    assert FrameOk(s, f) && FrameOk(s, 0);
    PoolUntouched(m, m', s.pool);
  }

  lemma LayoutFacts(m: Memory, s: State)
    requires Layout(m, s)
    ensures Owned(s) && s.pool.stack != [] && HEAP_BASE <= s.top <= HEAP_LIMIT
  {
  }

  /** The kernel's walk on a well laid out memory. */
  lemma WalkIn(m: Memory, s: State, low: int, v: int)
    requires Layout(m, s) && ShapeDownTo(s, low) && 0x800_0000 <= v < HEAP_LIMIT
    ensures (4, 0) in s.tables
    ensures v in s.pages ==> HEAP_BASE <= v < s.top && OnPath(1, v) in s.tables
    ensures var w := LowestPresentPage(m, 4096 * s.tables[(4, 0)], 4096 * v);
            var level := LowestTable(s.tables, v);
            && OnPath(level, v) in s.tables
            && (if IsMapped(s, v) then w == Walk(0, 4096 * s.pages[v].frame, EntryPtr(s, 1, v))
                else w.level == level && w.ptr == EntryPtr(s, level, v))
  {
    WalkFinds(m, s, low, v);
    assert PageOk(s, v);
  }

  /** The kernel's walk from 2^47 on: a readable entry of level 4, not present and not
      on demand. */
  lemma UpperHalfIn(m: Memory, s: State, va: int)
    requires Layout(m, s) && ShapeDownTo(s, 4) && 256 <= va / 0x80_0000_0000 % 512
    ensures (4, 0) in s.tables
    ensures var w := LowestPresentPage(m, 4096 * s.tables[(4, 0)], va);
            w.level == 4 && InRam(m, w.ptr) && m[w.ptr / 4096][w.ptr % 4096 / 8] == 0
  {
    hide LowestPresentPage, TablesInMemory, Owned, ShapeDownTo, PoolInMemory;
    UpperHalfStops(m, s, va);
    var i := va / 0x80_0000_0000 % 512;
    assert WordPtr(4096 * s.tables[(4, 0)], i) == Addr(s.tables[(4, 0)], i);
    FrameAddress(s.tables[(4, 0)]);
  }

  lemma HeapOnly(s: State, v: int)
    requires Owned(s)
    ensures v in s.pages ==> HEAP_BASE <= v < HEAP_LIMIT
  {
    assert PageOk(s, v);
  }

  /** Whatever the walk returns for a heap address can be read, and reads with the
      demand bit at level 1 exactly for a demand page. */
  lemma EntryReadable(m: Memory, s: State, v: int)
    requires Layout(m, s) && ShapeDownTo(s, 4) && 0x800_0000 <= v < HEAP_LIMIT && (4, 0) in s.tables
    ensures var w := LowestPresentPage(m, 4096 * s.tables[(4, 0)], 4096 * v);
            && InRam(m, w.ptr)
            && (w.level == 1 && IsDemand(m[w.ptr / 4096][w.ptr % 4096 / 8]) <==> v in s.pages && s.pages[v] == Demand)
            && (w.level == 1 ==> OnPath(1, v) in s.tables && w.ptr == EntryPtr(s, 1, v))
  {
    WalkIn(m, s, 4, v);
    if IsMapped(s, v) {
      MappedInRam(m, s, v);
      FrameAddress(s.pages[v].frame);
    } else {
      EntryPtrParts(m, s, LowestTable(s.tables, v), v);
      if OnPath(1, v) in s.tables { UnmappedEntry(m, s, v); }
    }
    hide Layout, Owned, ShapeDownTo, LowestPresentPage, EntryPtr, IsDemand, OnPath, EntryIndex;
  }

  /** The level-1 entry of a page that is not mapped has the demand bit exactly if the
      page is reserved, and neither the present nor the write bit. */
  lemma UnmappedEntry(m: Memory, s: State, v: int)
    requires Layout(m, s) && 0 <= v < HEAP_LIMIT && OnPath(1, v) in s.tables && !IsMapped(s, v)
    ensures var a := EntryPtr(s, 1, v);
            && InRam(m, a) && a / 4096 == s.tables[OnPath(1, v)] && a % 4096 / 8 == EntryIndex(1, v)
            && (IsDemand(m[a / 4096][a % 4096 / 8]) <==> v in s.pages)
            && m[a / 4096][a % 4096 / 8] % 4 == 0
  {
    assert IsDemand(DEMAND_BIT) && DEMAND_BIT % 4 == 0;
    hide Layout, Owned, OnPath, EntryIndex, Span, IsDemand;
    EntryPtrParts(m, s, 1, v);
    LevelOneEntry(m, s, v);
    var a := EntryPtr(s, 1, v);
    var e := m[a / 4096][a % 4096 / 8];
    if v !in s.pages { NoFlags(e); }
  }

  lemma LevelOneEntry(m: Memory, s: State, v: int)
    requires Layout(m, s) && 0 <= v < HEAP_LIMIT && OnPath(1, v) in s.tables
    ensures 0 <= s.tables[OnPath(1, v)] < |m| && 0 <= EntryIndex(1, v) < 512
    ensures PageEntry(m[s.tables[OnPath(1, v)]][EntryIndex(1, v)], s.pages, s.top, v)
  {
    EntryPtrParts(m, s, 1, v);
    PathEntryOk(m, s, 1, v);
    FrameAddress(s.tables[OnPath(1, v)]);
    hide Layout, Owned, OnPath, EntryIndex, Span, PageEntry;
  }

  /** An entry pointer splits into its table's frame and the index in it. */
  lemma EntryPtrParts(m: Memory, s: State, level: int, v: int)
    requires Layout(m, s) && 1 <= level <= 4 && 0 <= v < HEAP_LIMIT && OnPath(level, v) in s.tables
    ensures var a, p, i := EntryPtr(s, level, v), s.tables[OnPath(level, v)], EntryIndex(level, v);
            && InRam(m, a) && a / 4096 == p && a % 4096 / 8 == i
            && 0 < p < |m| && 0 <= i < 512 && a > 0
  {
    TableInRam(m, s, OnPath(level, v));
    IndexOnPath(level, v);
    var p, i := s.tables[OnPath(level, v)], EntryIndex(level, v);
    assert EntryPtr(s, level, v) == Addr(p, i);
  }

  // ---- Frame allocation and release --------------------------------------------

  /** MMU_pf_alloc disturbs neither tables nor mapped pages. */
  lemma AllocKeepsRest(m: Memory, m': Memory, s: State)
    requires Layout(m, s) && OnlyPoolTouched(m, m', s.pool)
    ensures TablesInMemory(m', s) && Contents(m', s) == Contents(m, s)
  {
    PoolOffOthers(m, m', s);
    TablesUntouched(m, m', s);
  }

  /** The frame about to be taken is pooled, real and not a table. */
  lemma NextFrameIsFree(m: Memory, s: State)
    requires Layout(m, s) && Alloc(s.pool).Taken?
    ensures var f := NextFrame(s);
            && f in s.own && s.own[f] == Pooled && 0 < f < |m|
            && (forall k :: k in s.tables ==> s.tables[k] != f)
            && (forall v :: IsMapped(s, v) ==> s.pages[v].frame != f)
  {
    AllocConserves(s.pool);
    var f := NextFrame(s);
    assert FrameOk(s, f) && FrameInRam(m, s, f);
    forall k | k in s.tables ensures s.tables[k] != f { assert TableOk(s, k); }
    forall v | IsMapped(s, v) ensures s.pages[v].frame != f { assert PageOk(s, v); }
  }

  /** One round of alloc_virtual_page: a zeroed frame `f` of the pool is linked in. */
  lemma LinkRound(m: Memory, z: Memory, s: State, level: int)
    requires Layout(m, s) && 1 <= level <= 3 && ShapeDownTo(s, level + 1) && s.top < HEAP_LIMIT
    requires Available(s.pool) > 0
    requires OnPath(level, s.top) !in s.tables && OnPath(level + 1, s.top) in s.tables
    requires Alloc(s.pool).Taken? && 0 <= NextFrame(s) < |m|
    requires OnlyPoolTouched(m, z, s.pool) && PoolInMemory(z, Alloc(s.pool).rest)
    requires z[NextFrame(s)] == ZERO_FRAME
    requires 0 <= s.tables[OnPath(level + 1, s.top)] < |m|
    requires 0 <= EntryIndex(level + 1, s.top) < 512
    ensures var t := AddTable(s, level, s.top);
            var m' := Put(z, s.tables[OnPath(level + 1, s.top)], EntryIndex(level + 1, s.top),
                          4096 * NextFrame(s) + TABLE_BITS);
            Layout(m', t) && ShapeDownTo(t, level) && Contents(m', t) == Contents(m, s)
  {
    var f, p := NextFrame(s), s.tables[OnPath(level + 1, s.top)];
    var t := AddTable(s, level, s.top);
    var m' := Put(z, p, EntryIndex(level + 1, s.top), 4096 * f + TABLE_BITS);
    NextFrameIsFree(m, s);
    AllocKeepsRest(m, z, s);
    assert TableOk(s, OnPath(level + 1, s.top));
    assert z[f := ZERO_FRAME] == z;
    LinkTable(z, m', s, level);
    AddTableKeeps(s, level);
    WriteOffPool(z, m', t, p);
    assert Contents(m', t) == Contents(z, s) by { TablesOffPages(s, OnPath(level + 1, s.top)); }
  }

  /** No page is mapped to a table frame. */
  lemma TablesOffPages(s: State, k: TableName)
    requires Owned(s) && k in s.tables
    ensures forall v :: IsMapped(s, v) ==> s.pages[v].frame != s.tables[k]
  {
    forall v | IsMapped(s, v) ensures s.pages[v].frame != s.tables[k] {
      assert PageOk(s, v) && TableOk(s, k);
    }
  }

  /** Entry `i` of table `k` is on the path to page `v`. */
  predicate PathSlot(k: TableName, i: int, v: int) {
    1 <= k.0 <= 4 && k == OnPath(k.0, v) && i == EntryIndex(k.0, v)
  }

  /** Entry `i` of table `k` is still there and, off the path to `v`, holds the same word. */
  ghost predicate SlotKept(m: Memory, m': Memory, s: State, t: State, v: int, k: TableName, i: int) {
    k in s.tables && 0 <= i < 512 && 0 <= s.tables[k] < |m| ==>
      && k in t.tables && t.tables[k] == s.tables[k] && |m'| == |m|
      && (!PathSlot(k, i, v) ==> m'[s.tables[k]][i] == m[s.tables[k]][i])
  }

  /** No table moved, and only entries on the path to `v` were written. */
  ghost predicate OffPathKept(m: Memory, m': Memory, s: State, t: State, v: int) {
    forall k, i :: SlotKept(m, m', s, t, v, k, i)
  }

  lemma OffPathSame(m: Memory, s: State, v: int)
    ensures OffPathKept(m, m, s, s, v)
  {
  }

  lemma OffPathThen(m: Memory, m1: Memory, m2: Memory, s: State, s1: State, s2: State, v: int)
    requires OffPathKept(m, m1, s, s1, v) && OffPathKept(m1, m2, s1, s2, v)
    ensures OffPathKept(m, m2, s, s2, v)
  {
    hide PathSlot;
    forall k, i ensures SlotKept(m, m2, s, s2, v, k, i) {
      assert SlotKept(m, m1, s, s1, v, k, i) && SlotKept(m1, m2, s1, s2, v, k, i);
    }
  }

  /** A round of alloc_virtual_page writes one entry of the path. */
  lemma LinkOffPath(m: Memory, z: Memory, s: State, level: int, e: u64)
    requires Layout(m, s) && 1 <= level <= 3 && s.top < HEAP_LIMIT
    requires OnPath(level, s.top) !in s.tables && OnPath(level + 1, s.top) in s.tables
    requires Alloc(s.pool).Taken? && OnlyPoolTouched(m, z, s.pool)
    requires 0 <= s.tables[OnPath(level + 1, s.top)] < |m| && 0 <= EntryIndex(level + 1, s.top) < 512
    ensures |z| == |m|
    ensures OffPathKept(m, Put(z, s.tables[OnPath(level + 1, s.top)], EntryIndex(level + 1, s.top), e),
                        s, AddTable(s, level, s.top), s.top)
  {
    PoolOffOthers(m, z, s);
    var p, j := s.tables[OnPath(level + 1, s.top)], EntryIndex(level + 1, s.top);
    var t, m' := AddTable(s, level, s.top), Put(z, p, j, e);
    hide Layout, OnlyPoolTouched, EntryIndex, Alloc;
    forall k, i ensures SlotKept(m, m', s, t, s.top, k, i) {
      if k in s.tables && s.tables[k] == p {
        SameTable(m, s, k, OnPath(level + 1, s.top));
      }
    }
  }

  /** The last step writes the level-1 entry of the path. */
  lemma ReserveOffPath(m: Memory, s: State, t: State, v: int, e: u64)
    requires Layout(m, s) && OnPath(1, v) in s.tables && t.tables == s.tables
    requires 0 <= s.tables[OnPath(1, v)] < |m| && 0 <= EntryIndex(1, v) < 512
    ensures OffPathKept(m, Put(m, s.tables[OnPath(1, v)], EntryIndex(1, v), e), s, t, v)
  {
    var p, m' := s.tables[OnPath(1, v)], Put(m, s.tables[OnPath(1, v)], EntryIndex(1, v), e);
    hide Layout, EntryIndex;
    forall k, i ensures SlotKept(m, m', s, t, v, k, i) {
      if k in s.tables && s.tables[k] == p {
        SameTable(m, s, k, OnPath(1, v));
      }
    }
  }

  lemma SameTable(m: Memory, s: State, k: TableName, l: TableName)
    requires Layout(m, s) && k in s.tables && l in s.tables && s.tables[k] == s.tables[l]
    ensures k == l
  {
    TableFramesDiffer(s, k, l);
  }

  /** Rewriting the level-1 entry of page `v`: ring and page contents stay. */
  lemma EntryWrite(m: Memory, s: State, t: State, v: int, e: u64)
    requires Layout(m, s) && Owned(t) && t.pool == s.pool
    requires 0 <= v < HEAP_LIMIT && OnPath(1, v) in s.tables
    requires t.tables == s.tables && t.own.Keys == s.own.Keys
    requires t.top == s.top || (v == s.top && t.top == v + 1)
    requires forall w :: w != v ==> (w in t.pages <==> w in s.pages) && (w in s.pages ==> t.pages[w] == s.pages[w])
    requires PageEntry(e, t.pages, t.top, v)
    ensures 0 < s.tables[OnPath(1, v)] < |m| && 0 <= EntryIndex(1, v) < 512
    ensures var m' := Put(m, s.tables[OnPath(1, v)], EntryIndex(1, v), e);
            Layout(m', t) && forall w :: w != v ==>
              && (w in Contents(m', t) <==> w in Contents(m, s))
              && (w in Contents(m, s) ==> Contents(m', t)[w] == Contents(m, s)[w])
  {
    var p := s.tables[OnPath(1, v)];
    TableInRam(m, s, OnPath(1, v));
    IndexOnPath(1, v);
    SetPage(m, s, t, v, e);
    var m' := Put(m, p, EntryIndex(1, v), e);
    assert TableOk(s, OnPath(1, v));
    WriteOffPool(m, m', s, p);
    TablesOffPages(s, OnPath(1, v));
  }

  /** page_fault_handler: the frame `f` just taken goes behind the entry. */
  lemma FaultLayout(m: Memory, m1: Memory, s: State, v: int)
    requires Layout(m, s) && ShapeDownTo(s, 4) && v in s.pages && s.pages[v] == Demand
    requires Alloc(s.pool).Taken? && OnlyPoolTouched(m, m1, s.pool) && PoolInMemory(m1, Alloc(s.pool).rest)
    ensures 0 <= v < HEAP_LIMIT && OnPath(1, v) in s.tables && 0 < NextFrame(s) < |m|
    ensures 0 < s.tables[OnPath(1, v)] < |m| && 0 <= EntryIndex(1, v) < 512
    ensures var t := FaultIn(s, v);
            var m' := Put(m1, s.tables[OnPath(1, v)], EntryIndex(1, v), 4096 * NextFrame(s) + TABLE_BITS);
            && Layout(m', t) && v !in Contents(m, s) && v in Contents(m', t)
            && Contents(m', t) == Contents(m, s)[v := Contents(m', t)[v]]
  {
    var t, f := FaultIn(s, v), NextFrame(s);
    assert PageOk(s, v);
    PagePath(s, 4, v);
    NextFrameIsFree(m, s);
    AllocKeepsRest(m, m1, s);
    TakeKeeps(s, Data(v), t);
    TableInRam(m, s, OnPath(1, v));
    IndexOnPath(1, v);
    SetPage(m1, s, t, v, 4096 * f + TABLE_BITS);
    var p := s.tables[OnPath(1, v)];
    var m' := Put(m1, p, EntryIndex(1, v), 4096 * f + TABLE_BITS);
    assert TableOk(t, OnPath(1, v));
    WriteOffPool(m1, m', t, p);
    TablesOffPages(s, OnPath(1, v));
    FaultContents(m1, m', s, t, v, p);
  }

  lemma FaultContents(m: Memory, m': Memory, s: State, t: State, v: int, p: int)
    requires v in s.pages && s.pages[v] == Demand
    requires t.pages.Keys == s.pages.Keys && v in t.pages && t.pages[v].Mapped? && 0 <= t.pages[v].frame < |m|
    requires forall w :: w in s.pages && w != v ==> t.pages[w] == s.pages[w]
    requires |m'| == |m| && forall g :: 0 <= g < |m| && g != p ==> m'[g] == m[g]
    requires forall w :: IsMapped(s, w) ==> s.pages[w].frame != p
    ensures v !in Contents(m, s) && v in Contents(m', t)
    ensures Contents(m', t) == Contents(m, s)[v := Contents(m', t)[v]]
  {
    forall w | w != v ensures IsMapped(t, w) <==> IsMapped(s, w) {
    }
  }

  lemma MappedNotPooled(m: Memory, s: State, v: int)
    requires Layout(m, s) && IsMapped(s, v)
    ensures !Owns(s.pool, s.pages[v].frame)
  {
    assert PageOk(s, v) && FrameOk(s, s.pages[v].frame);
  }

  /** The level-1 entry of a mapped page, and what rewriting it leaves alone. */
  lemma MappedEntry(m: Memory, s: State, v: int)
    requires Layout(m, s) && IsMapped(s, v) && 0 <= v < HEAP_LIMIT && OnPath(1, v) in s.tables
    ensures var f, a, p, i := s.pages[v].frame, EntryPtr(s, 1, v), s.tables[OnPath(1, v)], EntryIndex(1, v);
            && 0 < f < |m| && !Owns(s.pool, f)
            && InRam(m, a) && a / 4096 == p && a % 4096 / 8 == i && 0 < p < |m| && 0 <= i < 512
            && LeadsTo(m[p][i], f)
            && forall e: u64 :: PoolInMemory(Put(m, p, i, e), s.pool)
  {
    var f, p, i := s.pages[v].frame, s.tables[OnPath(1, v)], EntryIndex(1, v);
    EntryPtrParts(m, s, 1, v);
    PathEntryOk(m, s, 1, v);
    MappedInRam(m, s, v);
    MappedNotPooled(m, s, v);
    FrameAddress(p);
    assert TableOk(s, OnPath(1, v));
    forall e: u64 ensures PoolInMemory(Put(m, p, i, e), s.pool) {
      WriteOffPool(m, Put(m, p, i, e), s, p);
    }
    hide TablesInMemory, PoolInMemory, Owned;
  }

  /** MMU_free_pages, mapped page: flags cleared, frame back to the pool. */
  lemma ReleaseLayout(m: Memory, m1: Memory, m2: Memory, s: State, v: int, e: u64)
    requires Layout(m, s) && ShapeDownTo(s, 4) && v in s.pages
    requires 0 <= v < HEAP_LIMIT && OnPath(1, v) in s.tables
    requires 0 <= s.tables[OnPath(1, v)] < |m| && 0 <= EntryIndex(1, v) < 512
    requires Marks(e % 4096) && m1 == Put(m, s.tables[OnPath(1, v)], EntryIndex(1, v), e)
    requires match s.pages[v]
             case Demand => m2 == m1
             case Mapped(f) => OnlyPoolTouched(m1, m2, Free(s.pool, f)) && PoolInMemory(m2, Free(s.pool, f))
    ensures var t := ReleasePage(s, v);
            Layout(m2, t) && Contents(m2, t) == Contents(m, s) - {v}
  {
    var t := ReleasePage(s, v);
    var u := s.(pages := s.pages - {v});
    assert PageOk(s, v);
    SetPage(m, s, u, v, e);
    TablesOffPages(s, OnPath(1, v));
    assert forall w :: IsMapped(u, w) <==> IsMapped(s, w) && w != v;
    if s.pages[v].Mapped? {
      var f := s.pages[v].frame;
      GiveKeeps(s, f, t);
      PoolOffOthersOf(m1, m2, t, u);
      TablesUntouched(m1, m2, u);
      RelabelTables(m2, u, t);
      assert forall w :: IsMapped(t, w) <==> IsMapped(u, w);
    } else {
      forall g ensures FrameOk(t, g) { assert FrameOk(s, g); }
      forall k ensures TableOk(t, k) { assert TableOk(s, k); }
      forall w ensures PageOk(t, w) { assert PageOk(s, w); }
      assert TableOk(s, OnPath(1, v));
      WriteOffPool(m, m1, s, s.tables[OnPath(1, v)]);
    }
  }

  /** Pool and ledger aside, two states with the same tables and pages describe the
      same table memory. */
  lemma RelabelTables(m: Memory, s: State, t: State)
    requires TablesInMemory(m, s)
    requires t.tables == s.tables && t.pages == s.pages && t.top == s.top && t.own.Keys == s.own.Keys
    ensures TablesInMemory(m, t)
  {
    forall f ensures FrameInRam(m, t, f) { assert FrameInRam(m, s, f); }
    forall k, i ensures EntryAt(m, t, k, i) { assert EntryAt(m, s, k, i); }
  }

  lemma PoolOffOthersOf(m: Memory, m': Memory, t: State, u: State)
    requires Owned(t) && OnlyPoolTouched(m, m', t.pool)
    requires TablesInMemory(m, u) && u.tables == t.tables && u.pages == t.pages && u.own.Keys == t.own.Keys
    ensures forall k :: k in u.tables ==> 0 <= u.tables[k] < |m| && m'[u.tables[k]] == m[u.tables[k]]
    ensures forall v :: IsMapped(u, v) ==> 0 < u.pages[v].frame < |m| && m'[u.pages[v].frame] == m[u.pages[v].frame]
  {
    forall k | k in u.tables ensures 0 <= u.tables[k] < |m| && m'[u.tables[k]] == m[u.tables[k]] {
      assert TableOk(t, k);
      assert FrameOk(t, t.tables[k]) && FrameInRam(m, u, t.tables[k]);
    }
    forall v | IsMapped(u, v) ensures 0 < u.pages[v].frame < |m| && m'[u.pages[v].frame] == m[u.pages[v].frame] {
      assert PageOk(t, v);
      assert FrameOk(t, t.pages[v].frame) && FrameInRam(m, u, t.pages[v].frame);
    }
  }

  /** The hardware's walk on a well laid out memory. */
  lemma HardwareIn(m: Memory, s: State, va: int)
    requires Layout(m, s) && ShapeDownTo(s, 4) && 0x80_0000_0000 <= va < 0x8000_0000_0000
    ensures (4, 0) in s.tables
    ensures IsMapped(s, va / 4096) ==>
              va / 4096 in s.pages && s.pages[va / 4096].Mapped? &&
              HwTranslate(m, 4096 * s.tables[(4, 0)], 4, va) == Physical(4096 * s.pages[va / 4096].frame + va % 4096)
    ensures !IsMapped(s, va / 4096) ==> HwTranslate(m, 4096 * s.tables[(4, 0)], 4, va).PageFault?
  {
    HardwareAgrees(m, s, 4, va);
  }

  lemma PhysicalParts(f: int, va: int)
    requires 0 <= f && 0 <= va && va % 8 == 0
    ensures var a := 4096 * f + va % 4096;
            a / 4096 == f && a % 4096 == va % 4096 && a % 8 == 0 && 0 <= va % 4096 / 8 < 512
    ensures forall m: Memory :: f < |m| ==> InRam(m, 4096 * f + va % 4096)
  {
    WordSplit(va);
    PageSplit(4096 * f + va % 4096, f, va % 4096);
    var k := va % 4096 / 8;
    assert 4096 * f + va % 4096 == 8 * (512 * f + k);
  }

  lemma HeldFrame(m: Memory, s: State, f: int)
    requires Layout(m, s) && f in s.own && s.own[f] == Held
    ensures 0 < f < |m| && !Owns(s.pool, f)
  {
    assert FrameOk(s, f) && FrameInRam(m, s, f);
  }

  /** MMU_pf_free of a held frame disturbs neither tables nor mapped pages. */
  lemma FreeKeepsRest(m: Memory, m': Memory, s: State, f: int)
    requires Layout(m, s) && f in s.own && s.own[f] == Held
    requires OnlyPoolTouched(m, m', Free(s.pool, f)) && PoolInMemory(m', Free(s.pool, f))
    ensures var t := FreeFrame(s, f); Layout(m', t) && Contents(m', t) == Contents(m, s)
  {
    var t := FreeFrame(s, f);
    GiveKeeps(s, f, t);
    PoolOffOthersOf(m, m', t, s);
    TablesUntouched(m, m', s);
    RelabelTables(m', s, t);
    assert forall w :: IsMapped(t, w) <==> IsMapped(s, w);
  }

  // ---- Client writes -----------------------------------------------------------

  /** A store through a mapped page, at the frame the hardware found for it. */
  ghost function VirtualPut(m: Memory, s: State, v: int, i: int, x: u64): Memory
    requires IsMapped(s, v) && 0 <= s.pages[v].frame < |m| && 0 <= i < 512
  {
    Put(m, s.pages[v].frame, i, x)
  }

  /** Two pages never share a frame. */
  lemma PagesDiffer(s: State, v: int, w: int)
    requires Owned(s) && IsMapped(s, v) && IsMapped(s, w) && v != w
    ensures s.pages[v].frame != s.pages[w].frame
  {
    assert PageOk(s, v) && PageOk(s, w);
  }

  /** Read over write: a client's store changes one word of one page and nothing the
      kernel keeps - no link, no record, no table, no other page. */
  lemma ReadOverWrite(m: Memory, s: State, v: int, i: int, x: u64)
    requires Layout(m, s) && IsMapped(s, v) && 0 <= i < 512
    ensures 0 < s.pages[v].frame < |m| && v in Contents(m, s)
    ensures var m' := VirtualPut(m, s, v, i, x);
            && Layout(m', s)
            && Contents(m', s) == Contents(m, s)[v := Contents(m, s)[v][i := x]]
            && m'[0] == m[0]
            && (forall k :: k in s.tables ==> 0 <= s.tables[k] < |m| && m'[s.tables[k]] == m[s.tables[k]])
            && (forall f :: Owns(s.pool, f) && 0 <= f < |m| ==> m'[f] == m[f])
  {
    var f := s.pages[v].frame;
    MappedInRam(m, s, v);
    assert PageOk(s, v) && FrameOk(s, f) && FrameOk(s, 0);
    var m' := VirtualPut(m, s, v, i, x);
    WriteOffPool(m, m', s, f);
    forall k | k in s.tables ensures 0 <= s.tables[k] < |m| && s.tables[k] != f {
      TableInRam(m, s, k);
      TablesOffPages(s, k);
    }
    TablesUntouched(m, m', s);
    forall w | IsMapped(s, w) && w != v ensures s.pages[w].frame != f {
      PagesDiffer(s, v, w);
    }
  }

  /** The word at physical address `a`. */
  function LoadAt(m: Memory, a: int): u64 {
    if InRam(m, a) then m[a / 4096][a % 4096 / 8] else 0
  }

  /** Memory after a store to physical address `a`. */
  function StoreTo(m: Memory, a: int, x: u64): Memory {
    if InRam(m, a) then Put(m, a / 4096, a % 4096 / 8, x) else m
  }

  /** The same in the hardware's terms, for every address `b` of the lower half: a
      store of `x` at a mapped heap address `a` leaves the translation of `b` as it was,
      fault or not, and changes what a load from `b` gives only if `b` is translated to
      the very word of `a`.  That is `a` itself and, below 512 GiB, every copy of the
      physical address that the identity table makes. */
  lemma HardwareReadOverWrite(m: Memory, s: State, a: int, b: int, x: u64)
    requires Layout(m, s) && ShapeDownTo(s, 4) && a % 8 == 0 && b % 8 == 0
    requires 0x80_0000_0000 <= a < 0x8000_0000_0000 && IsMapped(s, a / 4096)
    requires 0 <= b < 0x8000_0000_0000
    ensures (4, 0) in s.tables
    ensures var l4 := 4096 * s.tables[(4, 0)];
            var pa, pb := HwTranslate(m, l4, 4, a), HwTranslate(m, l4, 4, b);
            && pa.Physical? && InRam(m, pa.address)
            && HwTranslate(StoreTo(m, pa.address, x), l4, 4, b) == pb
            && (pb.Physical? ==>
                  LoadAt(StoreTo(m, pa.address, x), pb.address) == if pb == pa then x else LoadAt(m, pb.address))
            && (pb == pa <==> b == a || (b < 0x80_0000_0000 && b % 0x4000_0000 == pa.address))
  {
    hide *;
    MappedParts(m, s, a / 4096);
    TranslationKept(m, s, a, b, x);
    SameTranslation(m, s, a, b);
    PhysicalWord(m, s.pages[a / 4096].frame, a, x);
    var pa := 4096 * s.pages[a / 4096].frame + a % 4096;
    var pb := HwTranslate(m, 4096 * s.tables[(4, 0)], 4, b);
    if pb.Physical? { LoadAfterStore(m, pa, pb.address, x); }
  }

  /** Which addresses share the word of a heap address. */
  lemma SameTranslation(m: Memory, s: State, a: int, b: int)
    requires Layout(m, s) && ShapeDownTo(s, 4)
    requires 0x80_0000_0000 <= a < 0x8000_0000_0000 && IsMapped(s, a / 4096)
    requires 0 <= b < 0x8000_0000_0000
    ensures (4, 0) in s.tables
    ensures var l4 := 4096 * s.tables[(4, 0)];
            var pa, pb := HwTranslate(m, l4, 4, a), HwTranslate(m, l4, 4, b);
            && pa == Physical(4096 * s.pages[a / 4096].frame + a % 4096)
            && (pb == pa <==> b == a || (b < 0x80_0000_0000 && b % 0x4000_0000 == pa.address))
  {
    hide *;
    MappedParts(m, s, a / 4096);
    HardwareIn(m, s, a);
    LayoutParts(m, s);
    if b < 0x80_0000_0000 {
      IdentityShortcut(m, s, b);
    } else {
      HardwareIn(m, s, b);
      if IsMapped(s, b / 4096) {
        MappedParts(m, s, b / 4096);
        SharedFrame(s, a / 4096, b / 4096);
        SameByte(s.pages[a / 4096].frame, s.pages[b / 4096].frame, a, b);
      }
    }
  }

  lemma SharedFrame(s: State, v: int, w: int)
    requires Owned(s) && IsMapped(s, v) && IsMapped(s, w)
    ensures v in s.pages && w in s.pages && s.pages[v].Mapped? && s.pages[w].Mapped?
    ensures s.pages[v].frame == s.pages[w].frame <==> v == w
  {
    if v != w { PagesDiffer(s, v, w); }
    hide Owned;
  }

  lemma SameByte(f: int, g: int, a: int, b: int)
    ensures 4096 * f + a % 4096 == 4096 * g + b % 4096 <==> f == g && a % 4096 == b % 4096
    ensures a == b <==> a / 4096 == b / 4096 && a % 4096 == b % 4096
  {
  }

  /** Every mapped heap word has 512 further addresses, one in each GiB of the identity
      table: through them it is read and written without the heap page. */
  lemma HeapWordAliased(m: Memory, s: State, a: int, k: int, x: u64)
    requires Layout(m, s) && ShapeDownTo(s, 4) && a % 8 == 0
    requires 0x80_0000_0000 <= a < 0x8000_0000_0000 && IsMapped(s, a / 4096) && 0 <= k < 512
    ensures (4, 0) in s.tables
    ensures var l4 := 4096 * s.tables[(4, 0)];
            var pa := HwTranslate(m, l4, 4, a);
            && pa.Physical? && 0 <= pa.address < 0x4000_0000
            && var b := pa.address + 0x4000_0000 * k;
            && b != a && b % 8 == 0
            && HwTranslate(m, l4, 4, b) == pa == HwTranslate(StoreTo(m, pa.address, x), l4, 4, b)
            && LoadAt(StoreTo(m, pa.address, x), pa.address) == x
  {
    hide *;
    MappedParts(m, s, a / 4096);
    HardwareIn(m, s, a);
    LayoutParts(m, s);
    RamBelowGigabyte(m, s);
    var pa := 4096 * s.pages[a / 4096].frame + a % 4096;
    PhysicalWord(m, s.pages[a / 4096].frame, a, x);
    LoadAfterStore(m, pa, pa, x);
    CopyOf(pa, k);
    WordAligned(m, pa);
    IdentityShortcut(m, s, pa + 0x4000_0000 * k);
    TranslationKept(m, s, a, pa + 0x4000_0000 * k, x);
  }

  lemma WordAligned(m: Memory, a: int)
    requires InRam(m, a)
    ensures a % 8 == 0
  {
  }

  lemma RamBelowGigabyte(m: Memory, s: State)
    requires Layout(m, s)
    ensures |m| <= 0x40000
  {
  }

  lemma CopyOf(pa: int, k: int)
    requires 0 <= pa < 0x4000_0000 && 0 <= k < 512
    ensures var b := pa + 0x4000_0000 * k;
            0 <= b < 0x80_0000_0000 && b % 0x4000_0000 == pa && b % 8 == pa % 8
  {
  }

  /** A store through a mapped heap page changes the translation of no address, heap
      or not, mapped or not. */
  lemma TranslationKept(m: Memory, s: State, a: int, b: int, x: u64)
    requires Layout(m, s) && ShapeDownTo(s, 4) && a % 8 == 0
    requires 0x80_0000_0000 <= a < 0x8000_0000_0000 && IsMapped(s, a / 4096)
    requires 0 <= b < 0x8000_0000_0000
    ensures (4, 0) in s.tables && 0 <= s.pages[a / 4096].frame < |m|
    ensures HwTranslate(m, 4096 * s.tables[(4, 0)], 4, a) == Physical(4096 * s.pages[a / 4096].frame + a % 4096)
    ensures HwTranslate(StoreTo(m, 4096 * s.pages[a / 4096].frame + a % 4096, x), 4096 * s.tables[(4, 0)], 4, b)
         == HwTranslate(m, 4096 * s.tables[(4, 0)], 4, b)
  {
    hide *;
    MappedParts(m, s, a / 4096);
    HardwareIn(m, s, a);
    PhysicalWord(m, s.pages[a / 4096].frame, a, x);
    ReadOverWrite(m, s, a / 4096, a % 4096 / 8, x);
    StoreAt(m, s, a / 4096, a % 4096 / 8, x);
    var m' := VirtualPut(m, s, a / 4096, a % 4096 / 8, x);
    SameStateTranslates(m, m', s, b);
  }

  /** The hardware's result in terms of the state alone. */
  lemma HwFrom4(m: Memory, s: State, va: int)
    requires TablesInMemory(m, s) && Owned(s) && ShapeDownTo(s, 4)
    requires 0x80_0000_0000 <= va < 0x8000_0000_0000
    ensures (4, 0) in s.tables
    ensures HwTranslate(m, 4096 * s.tables[(4, 0)], 4, va) ==
              (if va / 4096 in s.pages && s.pages[va / 4096].Mapped?
               then Physical(4096 * s.pages[va / 4096].frame + va % 4096)
               else PageFault(LowestTable(s.tables, va / 4096)))
  {
    hide TablesInMemory, Owned, LowestTable, HwTranslate;
    assert TableBuilt(s, 4, (4, 0));
    HwDown(m, s, 4, 4, va);
  }

  /** A store and a load by physical address: the load changes only at the word stored. */
  lemma LoadAfterStore(m: Memory, pa: int, pb: int, x: u64)
    requires InRam(m, pa)
    ensures LoadAt(StoreTo(m, pa, x), pb) == if pb == pa then x else LoadAt(m, pb)
  {
    hide Put;
    if InRam(m, pb) && pb != pa {
      SameWord(pa, pb);
      OtherWord(m, pa / 4096, pa % 4096 / 8, x, pb / 4096, pb % 4096 / 8);
    }
    WordSplit(pa);
    OtherWord(m, pa / 4096, pa % 4096 / 8, x, pa / 4096, pa % 4096 / 8);
  }

  lemma OtherWord(m: Memory, f: int, i: int, x: u64, g: int, j: int)
    requires 0 <= f < |m| && 0 <= i < 512 && 0 <= g < |m| && 0 <= j < 512
    ensures Put(m, f, i, x)[g][j] == if f == g && i == j then x else m[g][j]
  {
  }

  lemma PhysicalWord(m: Memory, f: int, va: int, x: u64)
    requires 0 <= f < |m| && 0 <= va && va % 8 == 0
    ensures var a, i := 4096 * f + va % 4096, va % 4096 / 8;
            InRam(m, a) && 0 <= i < 512 && LoadAt(m, a) == m[f][i] && StoreTo(m, a, x) == Put(m, f, i, x)
  {
    PhysicalParts(f, va);
    hide Put;
  }

  lemma SameWord(a: int, b: int)
    requires a % 8 == 0 && b % 8 == 0
    ensures a == b <==> a / 4096 == b / 4096 && a % 4096 / 8 == b % 4096 / 8
  {
    WordSplit(a);
    WordSplit(b);
  }

  lemma LayoutParts(m: Memory, s: State)
    requires Layout(m, s)
    ensures Owned(s) && TablesInMemory(m, s)
  {
  }

  lemma MappedParts(m: Memory, s: State, v: int)
    requires Layout(m, s) && IsMapped(s, v)
    ensures v in s.pages && s.pages[v].Mapped? && 0 < s.pages[v].frame < |m|
  {
    MappedInRam(m, s, v);
  }

  /** A store at the physical address of a mapped heap address. */
  lemma ClientStore(m: Memory, s: State, va: int, x: u64)
    requires Layout(m, s) && IsMapped(s, va / 4096) && 0 <= va && va % 8 == 0
    ensures var f, v, i := s.pages[va / 4096].frame, va / 4096, va % 4096 / 8;
            var a := 4096 * f + va % 4096;
            && 0 <= f < |m| && 0 <= i < 512 && InRam(m, a) && a / 4096 == f && a % 4096 / 8 == i && v in Contents(m, s)
            && Layout(Put(m, f, i, x), s)
            && Contents(Put(m, f, i, x), s) == Contents(m, s)[v := Contents(m, s)[v][i := x]]
  {
    hide Layout, Contents, Put;
    MappedParts(m, s, va / 4096);
    PhysicalParts(s.pages[va / 4096].frame, va);
    ReadOverWrite(m, s, va / 4096, va % 4096 / 8, x);
  }

  /** VirtualPut spelled out. */
  lemma StoreAt(m: Memory, s: State, v: int, i: int, x: u64)
    requires IsMapped(s, v) && 0 <= s.pages[v].frame < |m| && 0 <= i < 512
    ensures VirtualPut(m, s, v, i, x) == Put(m, s.pages[v].frame, i, x)
  {
  }

  /** A direct caller's store into a frame it holds. */
  lemma HeldWrite(m: Memory, s: State, f: int, i: int, x: u64)
    requires Layout(m, s) && f in s.own && s.own[f] == Held && 0 <= i < 512
    ensures 0 < f < |m|
    ensures Layout(Put(m, f, i, x), s) && Contents(Put(m, f, i, x), s) == Contents(m, s)
  {
    assert FrameOk(s, f) && FrameInRam(m, s, f);
    var m' := Put(m, f, i, x);
    WriteOffPool(m, m', s, f);
    forall k | k in s.tables ensures 0 <= s.tables[k] < |m| && s.tables[k] != f {
      TableInRam(m, s, k);
      assert TableOk(s, k);
    }
    TablesUntouched(m, m', s);
    forall w | IsMapped(s, w) ensures s.pages[w].frame != f { assert PageOk(s, w); }
  }

  // ---- Frames held by direct callers -------------------------------------------

  ghost predicate IsHeld(s: State, f: int) {
    f in s.own && s.own[f] == Held
  }

  /** Held frame `f`, unless it is `but`, is still held and holds the same words. */
  ghost predicate HeldWords(m: Memory, m': Memory, s: State, t: State, but: int, f: int) {
    IsHeld(s, f) && f != but && 0 <= f < |m| ==> IsHeld(t, f) && f < |m'| && m'[f] == m[f]
  }

  /** No held frame but `but` was touched or lost; frame 0 stands for none. */
  ghost predicate HeldKept(m: Memory, m': Memory, s: State, t: State, but: int) {
    forall f :: HeldWords(m, m', s, t, but, f)
  }

  lemma HeldSame(m: Memory, s: State)
    ensures HeldKept(m, m, s, s, 0)
  {
  }

  lemma HeldThen(m: Memory, m1: Memory, m2: Memory, s: State, s1: State, s2: State)
    requires HeldKept(m, m1, s, s1, 0) && HeldKept(m1, m2, s1, s2, 0)
    ensures HeldKept(m, m2, s, s2, 0)
  {
    hide IsHeld;
    forall f ensures HeldWords(m, m2, s, s2, 0, f) {
      assert HeldWords(m, m1, s, s1, 0, f) && HeldWords(m1, m2, s1, s2, 0, f);
    }
  }

  /** MMU_pf_alloc writes to no held frame, and takes none. */
  lemma HeldTake(m: Memory, z: Memory, s: State, t: State, o: Owner)
    requires Layout(m, s) && Alloc(s.pool).Taken? && OnlyPoolTouched(m, z, s.pool)
    requires t.own == s.own[NextFrame(s) := o]
    ensures HeldKept(m, z, s, t, 0)
  {
    NextFrameIsFree(m, s);
    forall f ensures HeldWords(m, z, s, t, 0, f) {
      if IsHeld(s, f) { HeldFrame(m, s, f); }
    }
    hide Layout, Alloc;
  }

  /** MMU_pf_alloc returns NULL. */
  lemma HeldNone(m: Memory, m': Memory, s: State)
    requires Layout(m, s) && OnlyPoolTouched(m, m', s.pool)
    ensures HeldKept(m, m', s, s, 0)
  {
    forall f ensures HeldWords(m, m', s, s, 0, f) {
      if IsHeld(s, f) { HeldFrame(m, s, f); }
    }
    hide Layout;
  }

  /** The table that the ledger names for a frame. */
  lemma TableOf(m: Memory, s: State, f: int)
    requires Layout(m, s) && f in s.own && s.own[f].Table?
    ensures var k := (s.own[f].level, s.own[f].prefix); k in s.tables && s.tables[k] == f
    ensures 0 < f < |m| <= MAX_FRAMES
  {
    assert FrameOk(s, f);
    TableInRam(m, s, (s.own[f].level, s.own[f].prefix));
  }

  /** A write to a frame that nobody holds. */
  lemma HeldPut(m: Memory, s: State, t: State, p: int, i: int, e: u64)
    requires p in s.own && s.own[p] != Held && 0 <= p < |m| && 0 <= i < 512 && t.own == s.own
    ensures HeldKept(m, Put(m, p, i, e), s, t, 0)
  {
  }

  /** A write to a table's entry. */
  lemma HeldEntry(m: Memory, s: State, t: State, k: TableName, i: int, e: u64)
    requires Layout(m, s) && k in s.tables && 0 <= s.tables[k] < |m| && 0 <= i < 512 && t.own == s.own
    ensures HeldKept(m, Put(m, s.tables[k], i, e), s, t, 0)
  {
    assert TableOk(s, k);
    HeldPut(m, s, t, s.tables[k], i, e);
    hide Layout;
  }

  /** A frame taken and linked into a table. */
  lemma HeldLink(m: Memory, z: Memory, s: State, t: State, o: Owner, k: TableName, i: int, e: u64)
    requires Layout(m, s) && Alloc(s.pool).Taken? && OnlyPoolTouched(m, z, s.pool)
    requires t.own == s.own[NextFrame(s) := o]
    requires k in s.tables && 0 <= s.tables[k] < |m| && 0 <= i < 512
    ensures |z| == |m| && HeldKept(m, Put(z, s.tables[k], i, e), s, t, 0)
  {
    HeldTake(m, z, s, t, o);
    NextFrameIsFree(m, s);
    assert TableOk(s, k);
    HeldPut(z, t, t, s.tables[k], i, e);
    HeldThen(m, z, Put(z, s.tables[k], i, e), s, t, t);
    hide Layout, Alloc;
  }

  /** MMU_pf_free of frame `f`. */
  lemma HeldGive(m: Memory, m': Memory, s: State, t: State, f: int, but: int)
    requires Layout(m, s) && OnlyPoolTouched(m, m', Free(s.pool, f)) && t.own == s.own[f := Pooled]
    requires f == but || (f in s.own && s.own[f] != Held)
    ensures HeldKept(m, m', s, t, but)
  {
    FreeConserves(s.pool, f);
    forall g ensures HeldWords(m, m', s, t, but, g) {
      if IsHeld(s, g) { HeldFrame(m, s, g); }
    }
    hide Layout, Free;
  }

  /** A mapped page's entry cleared and its frame freed. */
  lemma HeldClear(m: Memory, m1: Memory, m2: Memory, s: State, t: State, v: int, k: TableName, i: int, e: u64)
    requires Layout(m, s) && IsMapped(s, v) && k in s.tables && 0 <= s.tables[k] < |m| && 0 <= i < 512
    requires m1 == Put(m, s.tables[k], i, e) && OnlyPoolTouched(m1, m2, Free(s.pool, s.pages[v].frame))
    requires t.own == s.own[s.pages[v].frame := Pooled]
    ensures HeldKept(m, m2, s, t, 0)
  {
    var f := s.pages[v].frame;
    assert TableOk(s, k) && PageOk(s, v);
    FreeConserves(s.pool, f);
    forall g ensures HeldWords(m, m2, s, t, 0, g) {
      if IsHeld(s, g) { HeldFrame(m, s, g); }
    }
    hide Layout, Free;
  }

  /** A client's store into its page. */
  lemma HeldClient(m: Memory, s: State, v: int, i: int, x: u64)
    requires Layout(m, s) && IsMapped(s, v) && 0 <= s.pages[v].frame < |m| && 0 <= i < 512
    ensures HeldKept(m, Put(m, s.pages[v].frame, i, x), s, s, 0)
  {
    assert PageOk(s, v);
    HeldPut(m, s, s, s.pages[v].frame, i, x);
    hide Layout;
  }

  // ---- The processor's marks ---------------------------------------------------

  /** The processor marks a present entry of some table: ring, tables, heap contents and
      held frames are as before. */
  lemma MarkLayout(m: Memory, s: State, k: TableName, i: int, x: int)
    requires Layout(m, s) && k in s.tables && 0 <= i < 512 && Marks(x)
    ensures 0 < s.tables[k] < |m|
    ensures IsPresent(m[s.tables[k]][i]) ==>
              var m' := Put(m, s.tables[k], i, Remark(m[s.tables[k]][i], x));
              Layout(m', s) && Contents(m', s) == Contents(m, s) && HeldKept(m, m', s, s, 0)
  {
    hide Remark, Marks, LeadsTo, FirstGigabyte, IsPresent;
    TableInRam(m, s, k);
    var p := s.tables[k];
    var e := m[p][i];
    if IsPresent(e) {
      var m' := Put(m, p, i, Remark(e, x));
      MarkTables(m, s, k, i, x);
      assert TableOk(s, k);
      WriteOffPool(m, m', s, p);
      TablesOffPages(s, k);
      HeldEntry(m, s, s, k, i, Remark(e, x));
    }
  }

  lemma MarkTables(m: Memory, s: State, k: TableName, i: int, x: int)
    requires Owned(s) && TablesInMemory(m, s) && k in s.tables && 0 <= i < 512 && Marks(x)
    requires 0 <= s.tables[k] < |m| && IsPresent(m[s.tables[k]][i])
    ensures TablesInMemory(Put(m, s.tables[k], i, Remark(m[s.tables[k]][i], x)), s)
  {
    hide Remark, Marks, LeadsTo, FirstGigabyte, IsPresent;
    var e := m[s.tables[k]][i];
    var m' := Put(m, s.tables[k], i, Remark(e, x));
    assert EntryAt(m, s, k, i);
    MarkedEntryOk(e, s, k, i, x);
    forall f ensures FrameInRam(m', s, f) { assert FrameInRam(m, s, f); }
    forall l, j ensures EntryAt(m', s, l, j) {
      assert EntryAt(m, s, l, j);
      if l in s.tables && 0 <= j < 512 && s.tables[l] == s.tables[k] { TableFramesDiffer(s, l, k); }
    }
  }

  lemma MarkedEntryOk(e: u64, s: State, k: TableName, i: int, x: int)
    requires EntryOk(e, s, k, i) && IsPresent(e) && Marks(x)
    ensures EntryOk(Remark(e, x), s, k, i)
  {
    var v := 512 * k.1 + i;
    if k.0 == 1 {
      if v in s.pages && s.pages[v].Mapped? {
        RemarkLeads(e, s.pages[v].frame, x);
      } else if v !in s.pages {
        NoFlags(e);
        Odd4(e);
      }
    } else if k == (3, 0) {
      RemarkLeads(e, 0, x);
    } else if (k.0 - 1, v) in s.tables {
      RemarkLeads(e, s.tables[(k.0 - 1, v)], x);
    }
    hide Remark, LeadsTo, FirstGigabyte;
  }

  lemma Odd4(e: u64)
    requires e % 4 == 0
    ensures !IsPresent(e)
  {
    Split(e, 2, 2 * (e / 4), 0);
  }

  /** Neither do marks change a translation. */
  lemma MarkTranslation(m: Memory, s: State, k: TableName, i: int, x: int, va: int)
    requires Layout(m, s) && ShapeDownTo(s, 4) && k in s.tables && 0 <= i < 512 && Marks(x)
    requires 0 <= va < 0x8000_0000_0000
    ensures (4, 0) in s.tables && 0 < s.tables[k] < |m|
    ensures IsPresent(m[s.tables[k]][i]) ==>
              var l4, m' := 4096 * s.tables[(4, 0)], Put(m, s.tables[k], i, Remark(m[s.tables[k]][i], x));
              HwTranslate(m', l4, 4, va) == HwTranslate(m, l4, 4, va)
  {
    hide *;
    RootTable(s);
    MarkLayout(m, s, k, i, x);
    if IsPresent(m[s.tables[k]][i]) {
      SameStateTranslates(m, Put(m, s.tables[k], i, Remark(m[s.tables[k]][i], x)), s, va);
    }
  }

  lemma RootTable(s: State)
    requires ShapeDownTo(s, 4)
    ensures (4, 0) in s.tables
  {
    assert TableBuilt(s, 4, (4, 0));
  }

  /** Translations depend on the state alone. */
  lemma SameStateTranslates(m: Memory, m': Memory, s: State, va: int)
    requires Layout(m, s) && Layout(m', s) && ShapeDownTo(s, 4) && 0 <= va < 0x8000_0000_0000
    ensures (4, 0) in s.tables
    ensures HwTranslate(m', 4096 * s.tables[(4, 0)], 4, va) == HwTranslate(m, 4096 * s.tables[(4, 0)], 4, va)
  {
    hide *;
    LayoutParts(m, s);
    LayoutParts(m', s);
    if va < 0x80_0000_0000 {
      IdentityShortcut(m, s, va);
      IdentityShortcut(m', s, va);
    } else {
      HwFrom4(m, s, va);
      HwFrom4(m', s, va);
    }
  }
}
