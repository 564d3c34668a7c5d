/** get_lowest_present_page, and the hardware's own walk for comparison. */
module TableWalk {
  import opened EntryBits
  import opened Geometry
  import opened MachineWords
  import opened PhysicalMemory
  import opened MemoryState
  import opened PageTables

  /** Level 0 stands for PHYSICAL; `prev` is the entry above the returned one, 0
      when the walk does not report one. */
  datatype Walk = Walk(level: int, ptr: int, prev: int)

  /** Word `i` of the table at address `p`; 0 where no RAM answers. */
  function Word(m: Memory, p: int, i: int): u64 {
    if IsFrame(m, p) && 0 <= i < 512 then m[p / 4096][i] else 0
  }

  function WordPtr(p: int, i: int): int {
    p + 8 * i
  }

  /** get_lowest_present_page */
  function LowestPresentPage(m: Memory, l4Table: int, va: int): Walk {
    var l4Index := va / 0x80_0000_0000 % 512;
    var l3Index := va / 0x4000_0000 % 512;
    var l2Index := va / 0x20_0000 % 512;
    var l1Index := va / 0x1000 % 512;
    if l4Index == 0 then Walk(0, va, 0)
    else
      var l4Entry := Word(m, l4Table, l4Index);
      if !IsPresent(l4Entry) then Walk(4, WordPtr(l4Table, l4Index), 0)
      else
        var l3Table := Base(l4Entry);
        var l3Entry := Word(m, l3Table, l3Index);
        if !IsPresent(l3Entry) then Walk(3, WordPtr(l3Table, l3Index), WordPtr(l4Table, l4Index))
        else
          var l2Table := Base(l3Entry);
          var l2Entry := Word(m, l2Table, l2Index);
          if !IsPresent(l2Entry) then Walk(2, WordPtr(l2Table, l2Index), WordPtr(l3Table, l3Index))
          else
            var l1Table := Base(l2Entry);
            var l1Entry := Word(m, l1Table, l1Index);
            if !IsPresent(l1Entry) then Walk(1, WordPtr(l1Table, l1Index), WordPtr(l2Table, l2Index))
            else Walk(0, Base(l1Entry), WordPtr(l1Table, l1Index))
  }

  /** Bits 51..12 of an entry: the address of the next table or page. */
  function HwBase(entry: u64): int {
    entry / 4096 % 0x100_0000_0000 * 4096
  }

  datatype Translation = PageFault(level: int) | Physical(address: int)

  /** 4-level paging of section 4.5 of the Intel 64 SDM, Volume 3A: entry by entry
      from level 4 down, with bit 7 of a level-3 or level-2 entry ending the walk
      at a 1-GiB or 2-MiB page. */
  function HwTranslate(m: Memory, table: int, level: int, va: int): Translation
    requires 1 <= level <= 4
    decreases level
  {
    var size := 4096 * Span(level - 1);
    var entry := Word(m, table, va / size % 512);
    if !IsPresent(entry) then PageFault(level)
    else if level == 1 || (level <= 3 && entry / 128 % 2 == 1) then
      Physical(HwBase(entry) - HwBase(entry) % size + va % size)
    else HwTranslate(m, HwBase(entry), level - 1, va)
  }

  // ---- The walk on the tables of a state ---------------------------------------

  /** Address of the entry of `level` for page `v`. */
  function EntryPtr(s: State, level: int, v: int): int
    requires 1 <= level <= 4 && OnPath(level, v) in s.tables
  {
    WordPtr(4096 * s.tables[OnPath(level, v)], EntryIndex(level, v))
  }

  lemma IndicesOf(v: int)
    requires 0 <= v < HEAP_LIMIT
    ensures 4096 * v / 0x80_0000_0000 % 512 == EntryIndex(4, v)
    ensures 4096 * v / 0x4000_0000 % 512 == EntryIndex(3, v)
    ensures 4096 * v / 0x20_0000 % 512 == EntryIndex(2, v)
    ensures 4096 * v / 0x1000 % 512 == EntryIndex(1, v)
    ensures EntryIndex(4, v) == 0 <==> v < 0x800_0000
  {
    assert 4096 * v / 0x80_0000_0000 == v / 0x800_0000;
    assert 4096 * v / 0x4000_0000 == v / 0x4_0000;
    assert 4096 * v / 0x20_0000 == v / 0x200;
    assert 4096 * v / 0x1000 == v;
  }

  /** A table on the path has its parent on the path. */
  lemma PathClosed(s: State, low: int, level: int, v: int)
    requires HEAP_BASE <= s.top && ShapeDownTo(s, low)
    requires 1 <= level <= 3 && 0x800_0000 <= v < HEAP_LIMIT
    requires OnPath(level, v) in s.tables
    ensures OnPath(level + 1, v) in s.tables
  {
    assert TableBuilt(s, low, OnPath(level, v)) && TableBuilt(s, low, OnPath(level + 1, v));
    if level == 1 {
      assert v / 262144 == v / 512 / 512;
      if v / 512 == s.top / 512 { assert s.top / 262144 == s.top / 512 / 512; }
    } else if level == 2 {
      assert v / 134217728 == v / 262144 / 512;
      if v / 262144 == s.top / 262144 { assert s.top / 134217728 == s.top / 262144 / 512; }
    }
  }

  /** An entry to a frame has no page-size bit and its base is the frame. */
  lemma TableEntryBits(e: u64, f: int)
    requires LeadsTo(e, f) && 0 <= f < 0x40000
    ensures IsPresent(e) && e / 128 % 2 == 0 && HwBase(e) == 4096 * f == Base(e)
    ensures 4096 * f % 4096 == 0
  {
    hide LeadsTo, IsPresent, Base;
    FrameAddress(f);
    LeadsBits(e, f);
    assert f % 0x100_0000_0000 == f;
  }

  lemma TableInRam(m: Memory, s: State, k: TableName)
    requires TablesInMemory(m, s) && Owned(s) && k in s.tables
    ensures 0 < s.tables[k] < |m| <= MAX_FRAMES
  {
    assert TableOk(s, k) && FrameOk(s, s.tables[k]) && FrameInRam(m, s, s.tables[k]);
  }

  lemma MappedInRam(m: Memory, s: State, v: int)
    requires TablesInMemory(m, s) && Owned(s) && v in s.pages && s.pages[v].Mapped?
    ensures 0 < s.pages[v].frame < |m| <= MAX_FRAMES
  {
    assert PageOk(s, v) && FrameOk(s, s.pages[v].frame) && FrameInRam(m, s, s.pages[v].frame);
  }

  /** Entry that the walk reads on one level of the path to `v`. */
  function PathEntry(m: Memory, s: State, level: int, v: int): u64
    requires 1 <= level <= 4 && OnPath(level, v) in s.tables
  {
    Word(m, 4096 * s.tables[OnPath(level, v)], EntryIndex(level, v))
  }

  lemma PathEntryOk(m: Memory, s: State, level: int, v: int)
    requires TablesInMemory(m, s) && Owned(s)
    requires 1 <= level <= 4 && 0 <= v < HEAP_LIMIT
    requires OnPath(level, v) in s.tables
    requires level == 4 ==> 0x800_0000 <= v
    requires level <= 3 ==> OnPath(level, v) != (3, 0)
    ensures var e := PathEntry(m, s, level, v);
            if level == 1 then PageEntry(e, s.pages, s.top, v)
            else if OnPath(level - 1, v) in s.tables then LeadsTo(e, s.tables[OnPath(level - 1, v)])
            else e == 0
  {
    TableInRam(m, s, OnPath(level, v));
    IndexOnPath(level, v);
    assert EntryAt(m, s, OnPath(level, v), EntryIndex(level, v));
  }

  /** One level of the walk: the entry leads to the next table or page of the path. */
  lemma WalkStep(m: Memory, s: State, level: int, v: int)
    requires TablesInMemory(m, s) && Owned(s)
    requires 1 <= level <= 4 && 0x800_0000 <= v < HEAP_LIMIT
    requires OnPath(level, v) in s.tables
    ensures var e := PathEntry(m, s, level, v);
            && (IsPresent(e) <==> if level == 1 then IsMapped(s, v) else OnPath(level - 1, v) in s.tables)
            && (IsPresent(e) ==>
                  && HwBase(e) == Base(e)
                  && Base(e) == 4096 * (if level == 1 then s.pages[v].frame else s.tables[OnPath(level - 1, v)])
                  && Base(e) % 4096 == 0
                  && e / 128 % 2 == 0)
  {
    PathEntryOk(m, s, level, v);
    if level > 1 && OnPath(level - 1, v) in s.tables {
      TableInRam(m, s, OnPath(level - 1, v));
      TableEntryBits(PathEntry(m, s, level, v), s.tables[OnPath(level - 1, v)]);
    }
    if level == 1 && IsMapped(s, v) {
      MappedInRam(m, s, v);
      TableEntryBits(PathEntry(m, s, level, v), s.pages[v].frame);
    }
    hide TablesInMemory, Owned, HwBase, Word;
  }

  /** The walk stops where the state says: at the mapped frame, or at the entry of
      the lowest table present. */
  lemma WalkFinds(m: Memory, s: State, low: int, v: int)
    requires TablesInMemory(m, s) && Owned(s) && ShapeDownTo(s, low)
    requires 0x800_0000 <= v < HEAP_LIMIT
    ensures (4, 0) in s.tables
    ensures v in s.pages ==> OnPath(1, v) in s.tables
    ensures var w := LowestPresentPage(m, 4096 * s.tables[(4, 0)], 4096 * v);
            var level := LowestTable(s.tables, v);
            && OnPath(level, v) in s.tables && (level < 4 ==> OnPath(level + 1, v) in s.tables)
            && (if v in s.pages && s.pages[v].Mapped?
                then w == Walk(0, 4096 * s.pages[v].frame, EntryPtr(s, 1, v))
                else w == Walk(level, EntryPtr(s, level, v), if level == 4 then 0 else EntryPtr(s, level + 1, v)))
  {
    IndicesOf(v);
    PathTables(s, low, v);
    WalkStep(m, s, 4, v);
    if OnPath(3, v) in s.tables { WalkStep(m, s, 3, v); }
    if OnPath(2, v) in s.tables { WalkStep(m, s, 2, v); }
    if OnPath(1, v) in s.tables { WalkStep(m, s, 1, v); }
    assert OnPath(4, v) == (4, 0);
    hide TablesInMemory, Owned, ShapeDownTo, Word, IsPresent, Base, HwBase, EntryIndex, Span;
  }

  /** The tables on a path are present from level 4 down to the lowest. */
  lemma PathTables(s: State, low: int, v: int)
    requires Owned(s) && ShapeDownTo(s, low) && 0x800_0000 <= v < HEAP_LIMIT
    ensures OnPath(4, v) in s.tables
    ensures forall l :: LowestTable(s.tables, v) <= l <= 4 ==> OnPath(l, v) in s.tables
    ensures v in s.pages ==> LowestTable(s.tables, v) == 1
  {
    assert TableBuilt(s, low, (4, 0));
    if OnPath(1, v) in s.tables { PathClosed(s, low, 1, v); }
    if OnPath(2, v) in s.tables { PathClosed(s, low, 2, v); }
    assert PageOk(s, v) && TableBuilt(s, low, OnPath(1, v));
  }

  /** The hardware translates a heap page exactly when it is mapped, to the mapped
      frame; otherwise it faults at the level at which the kernel's walk stops. */
  lemma HardwareAgrees(m: Memory, s: State, low: int, va: int)
    requires TablesInMemory(m, s) && Owned(s) && ShapeDownTo(s, low)
    requires 0x80_0000_0000 <= va < 0x8000_0000_0000
    ensures (4, 0) in s.tables
    ensures var w := LowestPresentPage(m, 4096 * s.tables[(4, 0)], va - va % 4096);
            var v := va / 4096;
            HwTranslate(m, 4096 * s.tables[(4, 0)], 4, va) ==
              (if v in s.pages && s.pages[v].Mapped? then Physical(4096 * s.pages[v].frame + va % 4096)
               else PageFault(w.level))
  {
    var v := va / 4096;
    assert va - va % 4096 == 4096 * v;
    WalkFinds(m, s, low, v);
    HwDown(m, s, low, 4, va);
    hide TablesInMemory, Owned, ShapeDownTo, LowestPresentPage;
  }

  /** The upper half of the root table is empty: the walk stops at level 4. */
  lemma UpperHalfStops(m: Memory, s: State, va: int)
    requires TablesInMemory(m, s) && Owned(s) && ShapeDownTo(s, 4)
    requires 256 <= va / 0x80_0000_0000 % 512
    ensures (4, 0) in s.tables
    ensures var l4, i := 4096 * s.tables[(4, 0)], va / 0x80_0000_0000 % 512;
            && LowestPresentPage(m, l4, va) == Walk(4, WordPtr(l4, i), 0)
            && IsFrame(m, l4) && i < 512 && m[l4 / 4096][i] == 0
  {
    hide *;
    UpperIndexBound(va);
    UpperRoot(m, s, va / 0x80_0000_0000 % 512);
    RootStops(m, 4096 * s.tables[(4, 0)], va);
  }

  lemma UpperIndexBound(va: int)
    ensures 0 <= va / 0x80_0000_0000 % 512 < 512
  {
  }

  lemma UpperRoot(m: Memory, s: State, i: int)
    requires TablesInMemory(m, s) && Owned(s) && ShapeDownTo(s, 4) && 256 <= i < 512
    ensures (4, 0) in s.tables
    ensures var l4 := 4096 * s.tables[(4, 0)]; IsFrame(m, l4) && m[l4 / 4096][i] == 0 && Word(m, l4, i) == 0
  {
    assert TableBuilt(s, 4, (4, 0)) && TableBuilt(s, 4, (3, i));
    TableInRam(m, s, (4, 0));
    FrameAddress(s.tables[(4, 0)]);
    assert EntryAt(m, s, (4, 0), i);
    hide TablesInMemory, ShapeDownTo;
  }

  lemma RootStops(m: Memory, l4: int, va: int)
    requires va / 0x80_0000_0000 % 512 != 0 && Word(m, l4, va / 0x80_0000_0000 % 512) == 0
    ensures LowestPresentPage(m, l4, va) == Walk(4, WordPtr(l4, va / 0x80_0000_0000 % 512), 0)
  {
    assert !IsPresent(0);
    hide Word, Base, IsPresent, WordPtr;
  }

  lemma HwIndex(level: int, va: int)
    requires 1 <= level <= 4 && 0 <= va < 0x8000_0000_0000
    ensures va / (4096 * Span(level - 1)) % 512 == EntryIndex(level, va / 4096)
  {
    if level == 2 { assert va / 0x20_0000 == va / 4096 / 512; }
    if level == 3 { assert va / 0x4000_0000 == va / 4096 / 262144; }
    if level == 4 { assert va / 0x80_0000_0000 == va / 4096 / 134217728; }
  }

  lemma {:induction false} HwDown(m: Memory, s: State, low: int, level: int, va: int)
    requires TablesInMemory(m, s) && Owned(s) && ShapeDownTo(s, low)
    requires 0x80_0000_0000 <= va < 0x8000_0000_0000
    requires 1 <= level <= 4 && OnPath(level, va / 4096) in s.tables
    ensures var v := va / 4096;
            HwTranslate(m, 4096 * s.tables[OnPath(level, v)], level, va) ==
              (if v in s.pages && s.pages[v].Mapped? then Physical(4096 * s.pages[v].frame + va % 4096)
               else PageFault(LowestTable(s.tables, v)))
    decreases level
  {
    var v := va / 4096;
    HwIndex(level, va);
    WalkStep(m, s, level, v);
    PathTables(s, low, v);
    if level > 1 && OnPath(level - 1, v) in s.tables {
      HwDown(m, s, low, level - 1, va);
    }
    HwUnfold(m, 4096 * s.tables[OnPath(level, v)], level, va, PathEntry(m, s, level, v));
    hide TablesInMemory, Owned, ShapeDownTo, Word, IsPresent, Base, HwBase, EntryIndex, Span, OnPath, HwTranslate;
  }

  /** HwTranslate spelled out for entries without page-size bit. */
  lemma HwUnfold(m: Memory, table: int, level: int, va: int, e: u64)
    requires 1 <= level <= 4
    requires e == Word(m, table, va / (4096 * Span(level - 1)) % 512)
    requires IsPresent(e) ==> e / 128 % 2 == 0 && HwBase(e) % 4096 == 0
    ensures HwTranslate(m, table, level, va) ==
              if !IsPresent(e) then PageFault(level)
              else if level == 1 then Physical(HwBase(e) + va % 4096)
              else HwTranslate(m, HwBase(e), level - 1, va)
  {
    hide HwBase, IsPresent, Word;
  }

  /** Below 512 GiB the kernel's walk returns the address itself, but every GiB of
      the identity table maps the first GiB: the shortcut is right exactly below
      1 GiB. */
  lemma IdentityShortcut(m: Memory, s: State, va: int)
    requires TablesInMemory(m, s) && Owned(s) && ShapeDownTo(s, 4)
    requires 0 <= va < 0x80_0000_0000
    ensures (4, 0) in s.tables
    ensures var l4 := 4096 * s.tables[(4, 0)];
            && LowestPresentPage(m, l4, va) == Walk(0, va, 0)
            && HwTranslate(m, l4, 4, va) == Physical(va % 0x4000_0000)
            && (HwTranslate(m, l4, 4, va) == Physical(LowestPresentPage(m, l4, va).ptr) <==> va < 0x4000_0000)
  {
    GigabyteOf(va);
    IdentityWords(m, s, va / 0x4000_0000);
    TableInRam(m, s, (3, 0));
    TableEntryBits(Word(m, 4096 * s.tables[(4, 0)], 0), s.tables[(3, 0)]);
    hide *;
    IdentityWalk(m, 4096 * s.tables[(4, 0)], 4096 * s.tables[(3, 0)], va);
    IdentityStops(m, 4096 * s.tables[(4, 0)], va);
  }

  lemma GigabyteOf(va: int)
    requires 0 <= va < 0x80_0000_0000
    ensures 0 <= va / 0x4000_0000 < 512
    ensures va % 0x4000_0000 == va <==> va < 0x4000_0000
  {
  }

  /** The shortcut reads no table. */
  lemma IdentityStops(m: Memory, l4: int, va: int)
    requires 0 <= va < 0x80_0000_0000
    ensures LowestPresentPage(m, l4, va) == Walk(0, va, 0)
  {
    hide Word, IsPresent, Base;
    assert va / 0x80_0000_0000 == 0;
  }

  /** The two fixed tables as the walk reads them. */
  lemma IdentityWords(m: Memory, s: State, i: int)
    requires TablesInMemory(m, s) && Owned(s) && ShapeDownTo(s, 4) && 0 <= i < 512
    ensures (4, 0) in s.tables && (3, 0) in s.tables
    ensures LeadsTo(Word(m, 4096 * s.tables[(4, 0)], 0), s.tables[(3, 0)])
    ensures FirstGigabyte(Word(m, 4096 * s.tables[(3, 0)], i))
  {
    assert TableBuilt(s, 4, (4, 0)) && TableBuilt(s, 4, (3, 0));
    TableInRam(m, s, (4, 0));
    TableInRam(m, s, (3, 0));
    FrameAddress(s.tables[(4, 0)]);
    FrameAddress(s.tables[(3, 0)]);
    assert EntryAt(m, s, (4, 0), 0) && EntryAt(m, s, (3, 0), i);
    hide TablesInMemory, Owned, ShapeDownTo;
  }

  lemma IdentityWalk(m: Memory, l4: int, l3: int, va: int)
    requires 0 <= va < 0x80_0000_0000
    requires var e := Word(m, l4, 0); IsPresent(e) && HwBase(e) == l3
    requires FirstGigabyte(Word(m, l3, va / 0x4000_0000))
    ensures HwTranslate(m, l4, 4, va) == Physical(va % 0x4000_0000)
  {
    hide *;
    IdentityEntryBits(Word(m, l3, va / 0x4000_0000));
    IdentityLevel3(m, l3, va);
    IdentityLevel4(m, l4, l3, va);
  }

  lemma IdentityEntryBits(e: u64)
    requires FirstGigabyte(e)
    ensures HwBase(e) == 0 && IsPresent(e) && e / 128 % 2 == 1
  {
  }

  lemma IdentityLevel4(m: Memory, l4: int, l3: int, va: int)
    requires 0 <= va < 0x80_0000_0000
    requires var e := Word(m, l4, 0); IsPresent(e) && HwBase(e) == l3
    ensures HwTranslate(m, l4, 4, va) == HwTranslate(m, l3, 3, va)
  {
    hide HwBase, IsPresent, Word;
    assert 4096 * Span(3) == 0x80_0000_0000;
    assert va / 0x80_0000_0000 % 512 == 0;
  }

  lemma IdentityLevel3(m: Memory, l3: int, va: int)
    requires 0 <= va < 0x80_0000_0000
    requires var e := Word(m, l3, va / 0x4000_0000); HwBase(e) == 0 && IsPresent(e) && e / 128 % 2 == 1
    ensures HwTranslate(m, l3, 3, va) == Physical(va % 0x4000_0000)
  {
    hide HwBase, IsPresent, Word;
    assert va / 0x4000_0000 % 512 == va / 0x4000_0000;
  }
}
