/** The four-level page tables of vp_alloc.c as they lie in memory, and the walk
    that reads them. */
module PageTables {
  import opened EntryBits
  import opened MachineWords
  import opened PhysicalMemory
  import opened FramePool
  import opened MemoryState
  import FrameAllocation

  // Entry bits: 0 present, 1 writeable, 7 one-GiB page, 9 allocate on demand.
  const TABLE_BITS: u64 := 0x3
  const DEMAND_BIT: u64 := 0x200
  const IDENTITY_ENTRY: u64 := 0x83

  // ---- Tables in memory --------------------------------------------------------

  /** What a level-1 entry for page `v` may hold.  A page freed while mapped leaves
      its old frame address behind, with the processor's marks but no other flag. */
  ghost predicate PageEntry(e: u64, pages: map<int, PageState>, top: int, v: int) {
    if v in pages then
      match pages[v]
      case Demand => e == DEMAND_BIT
      case Mapped(f) => LeadsTo(e, f)
    else Marks(e % 4096) && (top <= v ==> e == 0)
  }

  /** What entry `i` of table `k` may hold. */
  ghost predicate EntryOk(e: u64, s: State, k: TableName, i: int) {
    if k.0 == 1 then PageEntry(e, s.pages, s.top, 512 * k.1 + i)
    else if k == (3, 0) then FirstGigabyte(e)
    else if (k.0 - 1, 512 * k.1 + i) in s.tables then LeadsTo(e, s.tables[(k.0 - 1, 512 * k.1 + i)])
    else e == 0
  }

  ghost predicate EntryAt(m: Memory, s: State, k: TableName, i: int) {
    k in s.tables && 0 <= i < 512 ==> 0 <= s.tables[k] < |m| && EntryOk(m[s.tables[k]][i], s, k, i)
  }

  ghost predicate FrameInRam(m: Memory, s: State, f: int) {
    f in s.own ==> 0 <= f < |m|
  }

  ghost predicate TablesInMemory(m: Memory, s: State) {
    && |m| <= MAX_FRAMES
    && (forall f :: FrameInRam(m, s, f))
    && forall k, i :: EntryAt(m, s, k, i)
  }

  /** Where the entry of `level` for page `v` lies. */
  function EntryIndex(level: int, v: int): int
    requires 1 <= level <= 4
  {
    v / Span(level - 1) % 512
  }

  lemma IndexOnPath(level: int, v: int)
    requires 1 <= level <= 4 && 0 <= v < HEAP_LIMIT
    ensures 0 <= EntryIndex(level, v) < 512
    ensures 512 * OnPath(level, v).1 + EntryIndex(level, v) == (if level == 1 then v else OnPath(level - 1, v).1)
  {
    if level == 1 {
    } else if level == 2 {
      assert v / 262144 == v / 512 / 512;
    } else if level == 3 {
      assert v / 134217728 == v / 262144 / 512;
    } else {
      assert v / 134217728 < 512;
    }
  }

  /** The index of the parent entry and the parent's name determine the child. */
  lemma ChildUnique(level: int, v: int, k: TableName, i: int)
    requires 1 <= level <= 4 && 0 <= v < HEAP_LIMIT && 0 <= i < 512
    requires k.0 == level
    requires 512 * k.1 + i == if level == 1 then v else OnPath(level - 1, v).1
    ensures k == OnPath(level, v) && i == EntryIndex(level, v)
  {
    IndexOnPath(level, v);
  }

  // ---- How the tables survive the other writers --------------------------------

  /** Memory changes that stay off the table frames keep the tables. */
  lemma TablesUntouched(m: Memory, m': Memory, s: State)
    requires TablesInMemory(m, s) && |m'| == |m|
    requires forall k :: k in s.tables ==> 0 <= s.tables[k] < |m| && m'[s.tables[k]] == m[s.tables[k]]
    ensures TablesInMemory(m', s)
  {
    forall f ensures FrameInRam(m', s, f) { assert FrameInRam(m, s, f); }
    forall k, i ensures EntryAt(m', s, k, i) { assert EntryAt(m, s, k, i); }
  }

  /** The pool is off the table frames and off the mapped and held frames. */
  lemma PoolOffOthers(m: Memory, m': Memory, s: State)
    requires Owned(s) && TablesInMemory(m, s) && FrameAllocation.OnlyPoolTouched(m, m', s.pool)
    ensures forall k :: k in s.tables ==> 0 <= s.tables[k] < |m| && m'[s.tables[k]] == m[s.tables[k]]
    ensures forall v :: IsMapped(s, v) ==>
              0 < s.pages[v].frame < |m| && m'[s.pages[v].frame] == m[s.pages[v].frame]
  {
    forall k | k in s.tables ensures 0 <= s.tables[k] < |m| && m'[s.tables[k]] == m[s.tables[k]] {
      assert TableOk(s, k);
      assert FrameOk(s, s.tables[k]) && FrameInRam(m, s, s.tables[k]);
    }
    forall v | IsMapped(s, v)
      ensures 0 < s.pages[v].frame < |m| && m'[s.pages[v].frame] == m[s.pages[v].frame]
    {
      assert PageOk(s, v);
      assert FrameOk(s, s.pages[v].frame) && FrameInRam(m, s, s.pages[v].frame);
    }
  }

  /** A table can sit on one frame only, and on no frame of another purpose. */
  lemma TableFramesDiffer(s: State, k: TableName, l: TableName)
    requires Owned(s) && k in s.tables && l in s.tables && s.tables[k] == s.tables[l]
    ensures k == l
  {
    assert TableOk(s, k) && TableOk(s, l);
  }

  /** Linking a zeroed frame into the lowest present table of the path. */
  lemma LinkTable(m: Memory, m': Memory, s: State, level: int)
    requires Owned(s) && 1 <= level <= 3 && ShapeDownTo(s, level + 1) && TablesInMemory(m, s)
    requires s.top < HEAP_LIMIT
    requires Alloc(s.pool).Taken?
    requires OnPath(level, s.top) !in s.tables && OnPath(level + 1, s.top) in s.tables
    requires var f, p := NextFrame(s), s.tables[OnPath(level + 1, s.top)];
             && f in s.own && s.own[f] == Pooled && 0 < f < |m| && 0 <= p < |m| && f != p
             && m' == Put(m[f := ZERO_FRAME], p, EntryIndex(level + 1, s.top), 4096 * f + TABLE_BITS)
    ensures TablesInMemory(m', AddTable(s, level, s.top))
  {
    var t, v := AddTable(s, level, s.top), s.top;
    var f, p := NextFrame(s), s.tables[OnPath(level + 1, v)];
    IndexOnPath(level + 1, v);
    forall g ensures FrameInRam(m', t, g) { assert FrameInRam(m, s, g); }
    forall k, i ensures EntryAt(m', t, k, i) {
      if k in t.tables && 0 <= i < 512 {
        if k == OnPath(level, v) {
          NewTableEntry(s, level, i);
        } else {
          assert EntryAt(m, s, k, i) && TableOk(s, k);
          if s.tables[k] == p { TableFramesDiffer(s, k, OnPath(level + 1, v)); }
          if k.0 == level + 1 && 512 * k.1 + i == OnPath(level, v).1 {
            ChildUnique(level + 1, v, k, i);
          }
        }
      }
    }
  }

  /** Nothing below a table that was missing on the path can be in use. */
  lemma NewTableEntry(s: State, level: int, i: int)
    requires Owned(s) && 1 <= level <= 3 && ShapeDownTo(s, level + 1)
    requires s.top < HEAP_LIMIT && Alloc(s.pool).Taken?
    requires OnPath(level, s.top) !in s.tables && 0 <= i < 512
    ensures EntryOk(0, AddTable(s, level, s.top), OnPath(level, s.top), i)
  {
    var k := OnPath(level, s.top);
    PathBuilt(s.top, level);
    assert TableBuilt(s, level + 1, k);
    assert k.1 * Span(level) == s.top;
    if level == 1 {
      assert PageOk(s, 512 * k.1 + i);
    } else {
      assert TableBuilt(s, level + 1, (level - 1, 512 * k.1 + i));
      assert (512 * k.1 + i) * Span(level - 1) >= s.top;
    }
    assert k != (3, 0);
  }

  /** Rewriting the level-1 entry of one page while only that page changes state. */
  lemma SetPage(m: Memory, s: State, t: State, v: int, e: u64)
    requires Owned(s) && TablesInMemory(m, s)
    requires 0 <= v < HEAP_LIMIT && OnPath(1, v) in s.tables && 0 <= s.tables[OnPath(1, v)] < |m|
    requires t.tables == s.tables && t.own.Keys == s.own.Keys
    requires t.top == s.top || (v == s.top && t.top == v + 1)
    requires forall w :: w != v ==> (w in t.pages <==> w in s.pages) && (w in s.pages ==> t.pages[w] == s.pages[w])
    requires PageEntry(e, t.pages, t.top, v)
    ensures TablesInMemory(Put(m, s.tables[OnPath(1, v)], EntryIndex(1, v), e), t)
  {
    var m' := Put(m, s.tables[OnPath(1, v)], EntryIndex(1, v), e);
    IndexOnPath(1, v);
    forall g ensures FrameInRam(m', t, g) { assert FrameInRam(m, s, g); }
    forall k, i ensures EntryAt(m', t, k, i) {
      assert EntryAt(m, s, k, i);
      if k in s.tables && 0 <= i < 512 {
        if s.tables[k] == s.tables[OnPath(1, v)] { TableFramesDiffer(s, k, OnPath(1, v)); }
        if k.0 == 1 && 512 * k.1 + i == v { ChildUnique(1, v, k, i); }
      }
    }
  }
}
