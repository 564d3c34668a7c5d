/** Abstract state of the memory manager: which frame serves which purpose, which
    page-table frames exist and what became of every heap page.

    The ledger `own` names one owner per managed frame, so that two purposes can
    never share a frame as long as ledger and the other fields agree. */
module MemoryState {
  import opened FramePool

  // Page numbers of vp_alloc.c's KERN_HEAP_BASE and of the end of the canonical lower half.
  const HEAP_BASE := 0x1000_0000
  const HEAP_LIMIT := 0x8_0000_0000

  datatype Owner =
    | Meta                               // frame 0, the allocator's record
    | Pooled                             // in the ring or not pooled yet
    | Table(level: int, prefix: int)     // a page table
    | Data(page: int)                    // mapped by the level-1 entry of `page`
    | Held                               // handed to a direct caller of MMU_pf_alloc

  datatype PageState = Demand | Mapped(frame: int)

  // A table is named by its level and the number of the region it covers.
  type TableName = (int, int)

  datatype State = State(
    pool: Pool,
    tables: map<TableName, int>,
    pages: map<int, PageState>,
    own: map<int, Owner>,
    top: int)

  ghost predicate IsMapped(s: State, v: int) {
    v in s.pages && s.pages[v].Mapped?
  }

  /** Pages covered by one table of a level (by one entry of the level above). */
  function Span(level: int): int {
    if level == 0 then 1 else if level == 1 then 512 else if level == 2 then 262144 else 134217728
  }

  /** The table of `level` on the path to page `v`. */
  function OnPath(level: int, v: int): TableName {
    (level, if level >= 4 then 0 else v / Span(level))
  }

  /** Tables present once the heap has grown to `top`: the root, the identity table
      and every table covering at least one page below `top`. */
  predicate Built(top: int, k: TableName) {
    || k == (4, 0)
    || k == (3, 0)
    || (1 <= k.0 <= 3 && HEAP_BASE <= k.1 * Span(k.0) < top)
  }

  /** Levels at which page `v` is the first page of its table. */
  function NewTables(v: int): nat {
    (if v % 512 == 0 then 1 else 0) + (if v % 262144 == 0 then 1 else 0) + (if v % 134217728 == 0 then 1 else 0)
  }

  /** Tables that the first `n` heap pages need below the two fixed ones. */
  function TableCount(n: int): nat
    decreases n
  {
    if n <= 0 then 0 else TableCount(n - 1) + NewTables(HEAP_BASE + n - 1)
  }

  // ---- The invariant, pointwise ------------------------------------------------

  /** The ledger's entry for frame `f` is backed by the field it speaks of. */
  ghost predicate FrameOk(s: State, f: int) {
    && (Owns(s.pool, f) ==> f in s.own && s.own[f] == Pooled)
    && (f in s.own ==>
          && 0 <= f
          && match s.own[f]
             case Meta => f == 0
             case Pooled => Owns(s.pool, f)
             case Table(level, prefix) => (level, prefix) in s.tables && s.tables[(level, prefix)] == f
             case Data(v) => v in s.pages && s.pages[v] == Mapped(f)
             case Held => true)
  }

  ghost predicate TableOk(s: State, k: TableName) {
    k in s.tables ==> s.tables[k] in s.own && s.own[s.tables[k]] == Table(k.0, k.1)
  }

  ghost predicate PageOk(s: State, v: int) {
    v in s.pages ==>
      && HEAP_BASE <= v < s.top
      && (s.pages[v].Mapped? ==> s.pages[v].frame in s.own && s.own[s.pages[v].frame] == Data(v))
  }

  /** Tables on the path to the next heap page exist from `low` upwards. */
  ghost predicate TableBuilt(s: State, low: int, k: TableName) {
    k in s.tables <==> Built(s.top, k) || (low <= k.0 <= 3 && k == OnPath(k.0, s.top))
  }

  /** The ledger agrees with pool, tables and pages. */
  ghost predicate Ledger(s: State) {
    && WellFormed(s.pool)
    && 0 in s.own && s.own[0] == Meta
    && HEAP_BASE <= s.top <= HEAP_LIMIT
    && (forall f :: FrameOk(s, f))
    && (forall k :: TableOk(s, k))
    && (forall v :: PageOk(s, v))
  }

  /** And the ring holds a frame, as it does once an allocation has succeeded. */
  ghost predicate Owned(s: State) {
    Ledger(s) && s.pool.stack != []
  }

  ghost predicate ShapeDownTo(s: State, low: int) {
    forall k :: TableBuilt(s, low, k)
  }

  ghost predicate Inv(s: State) {
    Owned(s) && ShapeDownTo(s, 4) && |s.tables| == 2 + TableCount(s.top - HEAP_BASE)
  }

  // ---- Moving frames in and out of the pool ------------------------------------

  function NextFrame(s: State): int
    requires Alloc(s.pool).Taken?
  {
    Alloc(s.pool).frame
  }

  function Take(s: State, o: Owner): State
    requires Alloc(s.pool).Taken?
  {
    s.(pool := Alloc(s.pool).rest, own := s.own[NextFrame(s) := o])
  }

  function Give(s: State, f: int): State {
    s.(pool := Free(s.pool, f), own := s.own[f := Pooled])
  }

  /** A frame changes owner from the pool to a holder; the tables or the pages may
      gain the entry that the new owner speaks of. */
  lemma TakeKeeps(s: State, o: Owner, t: State)
    requires Ledger(s) && Alloc(s.pool).Taken?
    requires match o
             case Table(level, prefix) =>
               (level, prefix) !in s.tables && t == Take(s, o).(tables := s.tables[(level, prefix) := NextFrame(s)])
             case Data(v) =>
               v in s.pages && s.pages[v] == Demand && t == Take(s, o).(pages := s.pages[v := Mapped(NextFrame(s))])
             case Held => t == Take(s, o)
             case _ => false
    ensures Owned(t) && t.own.Keys == s.own.Keys
    ensures NextFrame(s) in s.own && s.own[NextFrame(s)] == Pooled && NextFrame(s) > 0
    ensures Available(t.pool) == Available(s.pool) - 1
  {
    AllocConserves(s.pool);
    AllocOutcome(s.pool);
    hide Alloc, WellFormed, Owns, Built;
    assert FrameOk(s, NextFrame(s));
    forall f ensures FrameOk(t, f) { assert FrameOk(s, f); }
    forall k ensures TableOk(t, k) { assert TableOk(s, k); }
    forall v ensures PageOk(t, v) { assert PageOk(s, v); }
  }

  /** A mapped or held frame goes back to the pool. */
  lemma GiveKeeps(s: State, f: int, t: State)
    requires Owned(s) && f in s.own
    requires match s.own[f]
             case Data(v) => t == Give(s, f).(pages := s.pages - {v})
             case Held => t == Give(s, f)
             case _ => false
    ensures Owned(t) && t.own.Keys == s.own.Keys
    ensures Available(t.pool) == Available(s.pool) + 1
  {
    assert FrameOk(s, f);
    FreeConserves(s.pool, f);
    forall g ensures FrameOk(t, g) { assert FrameOk(s, g); }
    forall k ensures TableOk(t, k) { assert TableOk(s, k); }
    forall v ensures PageOk(t, v) { assert PageOk(s, v); }
  }

  // ---- Start-up ----------------------------------------------------------------

  /** Before any table exists: frame 0 is the record, the rest is pooled. */
  ghost function Fresh(p: Pool): State {
    State(p, map[], map[], map f | f in [0] + Frames(p) :: if f == 0 then Meta else Pooled, HEAP_BASE)
  }

  lemma FreshOwned(p: Pool)
    requires WellFormed(p)
    ensures Ledger(Fresh(p))
    ensures forall f :: f in Fresh(p).own <==> f == 0 || Owns(p, f)
  {
    forall f ensures FrameOk(Fresh(p), f) && (f in Fresh(p).own <==> f == 0 || Owns(p, f)) {
      FramesAreOwned(p, f);
    }
  }

  /** MMU_init_vp takes the root table and the identity table. */
  ghost function Boot(p: Pool): State
    requires WellFormed(p) && Available(p) >= 2
  {
    AllocOutcome(p);
    AllocOutcome(Alloc(p).rest);
    var root := Take(Fresh(p), Table(4, 0)).(tables := map[(4, 0) := NextFrame(Fresh(p))]);
    Take(root, Table(3, 0)).(tables := root.tables[(3, 0) := NextFrame(root)])
  }

  lemma BootInv(p: Pool)
    requires WellFormed(p) && Available(p) >= 2
    ensures Inv(Boot(p)) && Boot(p).own.Keys == Fresh(p).own.Keys
    ensures Available(Boot(p).pool) == Available(p) - 2
  {
    BootOwned(p);
    var b := Boot(p);
    assert b.tables.Keys == {(4, 0), (3, 0)};
    assert |b.tables| == |b.tables.Keys| == 2;
    assert b.top == HEAP_BASE && TableCount(0) == 0;
    hide Owned, Boot, Fresh;
    forall k ensures TableBuilt(b, 4, k) {
    }
  }

  lemma BootOwned(p: Pool)
    requires WellFormed(p) && Available(p) >= 2
    ensures Owned(Boot(p)) && Boot(p).own.Keys == Fresh(p).own.Keys
    ensures Available(Boot(p).pool) == Available(p) - 2
  {
    AllocOutcome(p);
    AllocOutcome(Alloc(p).rest);
    FreshOwned(p);
    var s := Fresh(p);
    var root := Take(s, Table(4, 0)).(tables := map[(4, 0) := NextFrame(s)]);
    assert root.tables == s.tables[(4, 0) := NextFrame(s)];
    TakeKeeps(s, Table(4, 0), root);
    TakeKeeps(root, Table(3, 0), Boot(p));
    hide Owned, Alloc, WellFormed;
  }

  // ---- Building page tables ----------------------------------------------------

  /** Level of the lowest table present on the path to `v`. */
  function LowestTable(tables: map<TableName, int>, v: int): (level: int)
    ensures 1 <= level <= 4
    ensures level < 4 ==> OnPath(level, v) in tables
    ensures forall l :: 1 <= l < level ==> OnPath(l, v) !in tables
  {
    if OnPath(1, v) in tables then 1
    else if OnPath(2, v) in tables then 2
    else if OnPath(3, v) in tables then 3
    else 4
  }

  /** One round of alloc_virtual_page's loop: a new table of `level` for page `v`. */
  function AddTable(s: State, level: int, v: int): State
    requires Alloc(s.pool).Taken?
  {
    var k := OnPath(level, v);
    Take(s, Table(k.0, k.1)).(tables := s.tables[k := NextFrame(s)])
  }

  lemma AddTableKeeps(s: State, level: int)
    requires Owned(s) && 1 <= level <= 3 && ShapeDownTo(s, level + 1)
    requires OnPath(level, s.top) !in s.tables
    requires Available(s.pool) > 0
    ensures Alloc(s.pool).Taken?
    ensures var t := AddTable(s, level, s.top);
            && Owned(t) && ShapeDownTo(t, level)
            && t.own.Keys == s.own.Keys
            && |t.tables| == |s.tables| + 1
            && Available(t.pool) == Available(s.pool) - 1
  {
    AllocOutcome(s.pool);
    var k := OnPath(level, s.top);
    var t := AddTable(s, level, s.top);
    TakeKeeps(s, Table(k.0, k.1), t);
    forall l ensures TableBuilt(t, level, l) { assert TableBuilt(s, level + 1, l); }
  }

  /** The missing tables from level `from` - 1 down to level 1. */
  function AddTables(s: State, from: int, v: int): State
    requires 1 <= from <= 4
    requires s.pool.stack != [] && Available(s.pool) >= from - 1
    decreases from
  {
    if from == 1 then s
    else
      AllocOutcome(s.pool);
      AddTables(AddTable(s, from - 1, v), from - 1, v)
  }

  lemma {:induction false} AddTablesKeeps(s: State, from: int)
    requires Owned(s) && 1 <= from <= 4 && ShapeDownTo(s, from)
    requires forall l :: 1 <= l < from ==> OnPath(l, s.top) !in s.tables
    requires Available(s.pool) >= from - 1
    ensures var t := AddTables(s, from, s.top);
            && Owned(t) && ShapeDownTo(t, 1)
            && t.pages == s.pages && t.top == s.top && t.own.Keys == s.own.Keys
            && |t.tables| == |s.tables| + (from - 1)
            && Available(t.pool) == Available(s.pool) - (from - 1)
    decreases from
  {
    if from > 1 {
      AddTableKeeps(s, from - 1);
      AddTablesKeeps(AddTable(s, from - 1, s.top), from - 1);
    }
  }

  /** A round of the loop adds the table one level down; the re-walk then stops
      exactly one level lower. */
  lemma AddTablesRound(s: State, from: int)
    requires Owned(s) && 2 <= from <= 4 && ShapeDownTo(s, from) && LowestTable(s.tables, s.top) == from
    requires Available(s.pool) >= from - 1
    ensures Alloc(s.pool).Taken?
    ensures var t := AddTable(s, from - 1, s.top);
            && t.pool.stack != [] && Available(t.pool) == Available(s.pool) - 1
            && AddTables(t, from - 1, s.top) == AddTables(s, from, s.top)
            && LowestTable(t.tables, s.top) == from - 1
            && t.top == s.top && t.pages == s.pages
  {
    AddTableKeeps(s, from - 1);
  }

  /** Below the heap top the missing tables are those whose first page is the top. */
  lemma MissingTables(s: State)
    requires HEAP_BASE <= s.top && ShapeDownTo(s, 4)
    ensures LowestTable(s.tables, s.top) == 1 + NewTables(s.top)
    ensures ShapeDownTo(s, LowestTable(s.tables, s.top))
  {
    PathPresent(s, 1);
    PathPresent(s, 2);
    PathPresent(s, 3);
    MultiplesNest(s.top);
    var low := LowestTable(s.tables, s.top);
    forall k ensures TableBuilt(s, low, k) {
      assert TableBuilt(s, 4, k);
    }
  }

  lemma PathPresent(s: State, level: int)
    requires HEAP_BASE <= s.top && ShapeDownTo(s, 4) && 1 <= level <= 3
    ensures OnPath(level, s.top) in s.tables <==> s.top % Span(level) != 0
  {
    assert TableBuilt(s, 4, OnPath(level, s.top));
    PathBuilt(s.top, level);
  }

  lemma PathBuilt(v: int, level: int)
    requires HEAP_BASE <= v && 1 <= level <= 3
    ensures Built(v, OnPath(level, v)) <==> v % Span(level) != 0
  {
    if level == 1 { assert v == v / 512 * 512 + v % 512; }
    else if level == 2 { assert v == v / 262144 * 262144 + v % 262144; }
    else { assert v == v / 134217728 * 134217728 + v % 134217728; }
  }

  lemma MultiplesNest(v: int)
    ensures v % 262144 == 0 ==> v % 512 == 0
    ensures v % 134217728 == 0 ==> v % 262144 == 0
  {
  }

  /** alloc_virtual_page on demand, at the heap top. */
  function ReservePage(s: State): State
    requires s.pool.stack != [] && Available(s.pool) >= LowestTable(s.tables, s.top) - 1
  {
    var t := AddTables(s, LowestTable(s.tables, s.top), s.top);
    t.(pages := t.pages[s.top := Demand], top := s.top + 1)
  }

  /** Reserving takes at most three frames, all of them tables; only the page at the
      top changes state. */
  lemma ReservePageKeeps(s: State)
    requires Inv(s) && s.top < HEAP_LIMIT && Available(s.pool) >= NewTables(s.top)
    ensures LowestTable(s.tables, s.top) - 1 == NewTables(s.top) <= 3
    ensures var t := ReservePage(s);
            && Inv(t) && t.top == s.top + 1 && t.own.Keys == s.own.Keys
            && s.top !in s.pages && t.pages == s.pages[s.top := Demand]
            && Available(t.pool) == Available(s.pool) - NewTables(s.top)
  {
    MissingTables(s);
    var low := LowestTable(s.tables, s.top);
    AddTablesKeeps(s, low);
    ReserveShape(AddTables(s, low, s.top));
  }

  /** With the whole path built, the top can move past the page. */
  lemma ReserveShape(a: State)
    requires Owned(a) && ShapeDownTo(a, 1) && a.top < HEAP_LIMIT
    ensures var t := a.(pages := a.pages[a.top := Demand], top := a.top + 1);
            a.top !in a.pages && Owned(t) && ShapeDownTo(t, 4)
  {
    var t := a.(pages := a.pages[a.top := Demand], top := a.top + 1);
    assert PageOk(a, a.top);
    forall f ensures FrameOk(t, f) { assert FrameOk(a, f); }
    forall k ensures TableOk(t, k) && TableBuilt(t, 4, k) {
      assert TableOk(a, k) && TableBuilt(a, 1, k);
      PathAdvances(a.top, k);
    }
    forall v ensures PageOk(t, v) { assert PageOk(a, v); }
  }

  lemma PathAdvances(v: int, k: TableName)
    requires HEAP_BASE <= v
    ensures Built(v, k) || (1 <= k.0 <= 3 && k == OnPath(k.0, v)) <==> Built(v + 1, k)
  {
    if k.0 == 1 { assert v == v / 512 * 512 + v % 512; }
    if k.0 == 2 { assert v == v / 262144 * 262144 + v % 262144; }
    if k.0 == 3 { assert v == v / 134217728 * 134217728 + v % 134217728; }
  }

  /** MMU_alloc_pages: the loop reserves page after page. */
  ghost function ReservePages(s: State, n: nat): (t: State)
    requires Inv(s) && CanReserve(s, n)
    ensures Inv(t) && t.top == s.top + n && t.own.Keys == s.own.Keys
    ensures Available(t.pool) == Available(s.pool) - Cost(s, n)
    decreases n
  {
    if n == 0 then s
    else
      hide *;
      ReserveLess(s, n);
      var t := ReservePages(s, n - 1);
      ReserveOne(s, t, n);
      ReservePage(t)
  }

  lemma ReserveOne(s: State, t: State, n: nat)
    requires Inv(s) && CanReserve(s, n) && n > 0
    requires Inv(t) && t.top == s.top + (n - 1) && t.own.Keys == s.own.Keys
    requires Available(t.pool) == Available(s.pool) - Cost(s, n - 1)
    ensures t.pool.stack != [] && Available(t.pool) >= LowestTable(t.tables, t.top) - 1
    ensures var u := ReservePage(t);
            && Inv(u) && u.top == s.top + n && u.own.Keys == s.own.Keys
            && Available(u.pool) == Available(s.pool) - Cost(s, n)
  {
    hide *;
    TopInHeap(s);
    TopInHeap(t);
    ReserveMeans(s, n);
    CostMonotone(s, n);
    ReservePageKeeps(t);
  }

  /** Frames that reserving `n` more pages takes: tables only, no data frame. */
  ghost function Cost(s: State, n: nat): int {
    TableCount(s.top + n - HEAP_BASE) - TableCount(s.top - HEAP_BASE)
  }

  ghost predicate CanReserve(s: State, n: nat) {
    s.top + n <= HEAP_LIMIT && Cost(s, n) <= Available(s.pool)
  }

  lemma ReserveNone(s: State)
    requires Inv(s)
    ensures CanReserve(s, 0) && ReservePages(s, 0) == s
  {
  }

  /** What the loop of MMU_alloc_pages needs for one more page. */
  lemma ReserveNext(s: State, n: nat, i: nat)
    requires Inv(s) && CanReserve(s, n) && i < n && CanReserve(s, i)
    ensures CanReserve(s, i + 1)
    ensures var t := ReservePages(s, i);
            && t.top < HEAP_LIMIT && Available(t.pool) >= NewTables(t.top)
            && LowestTable(t.tables, t.top) - 1 == NewTables(t.top) && t.pool.stack != []
            && ReservePages(s, i + 1) == ReservePage(t)
  {
    hide *;
    ReserveRoom(s, n, i);
    ReserveUnfold(s, i);
    ReservePageKeeps(ReservePages(s, i));
    TopInHeap(ReservePages(s, i));
  }

  lemma ReserveRoom(s: State, n: nat, i: nat)
    requires Inv(s) && CanReserve(s, n) && i < n && CanReserve(s, i)
    ensures CanReserve(s, i + 1)
    ensures var t := ReservePages(s, i); t.top < HEAP_LIMIT && Available(t.pool) >= NewTables(t.top)
  {
    hide *;
    TopInHeap(s);
    ReserveMeans(s, n);
    ReserveMeans(s, i);
    ReserveMeans(s, i + 1);
    CostGrows(s, i, n);
  }

  lemma ReserveMeans(s: State, n: nat)
    ensures CanReserve(s, n) <==> s.top + n <= HEAP_LIMIT && Cost(s, n) <= Available(s.pool)
  {
    hide Cost, Available;
  }

  lemma ReserveUnfold(s: State, i: nat)
    requires Inv(s) && CanReserve(s, i) && CanReserve(s, i + 1)
    ensures var t := ReservePages(s, i);
            && t.pool.stack != [] && Available(t.pool) >= LowestTable(t.tables, t.top) - 1
            && ReservePages(s, i + 1) == ReservePage(t)
  {
    hide Inv, Owned, ShapeDownTo, CanReserve, Cost, NewTables, ReservePage, LowestTable, Available, TableCount;
    ReserveRoom(s, i + 1, i);
    ReservePageKeeps(ReservePages(s, i));
    TopInHeap(ReservePages(s, i));
  }

  lemma CostGrows(s: State, i: nat, n: nat)
    requires HEAP_BASE <= s.top && i < n
    ensures Cost(s, i + 1) <= Cost(s, n) && Cost(s, i + 1) == Cost(s, i) + NewTables(s.top + i)
  {
    TableCountMonotone(s.top + i + 1 - HEAP_BASE, s.top + n - HEAP_BASE);
    CostMonotone(s, i + 1);
    assert s.top + (i + 1) - 1 == s.top + i;
  }

  lemma {:induction false} TableCountMonotone(a: int, b: int)
    requires a <= b
    ensures TableCount(a) <= TableCount(b)
    decreases b - a
  {
    if a < b {
      TableCountMonotone(a, b - 1);
    }
  }

  lemma CostMonotone(s: State, n: nat)
    requires HEAP_BASE <= s.top && n > 0
    ensures Cost(s, n) == Cost(s, n - 1) + NewTables(s.top + n - 1)
  {
  }

  /** Exactly the pages of the new range become demand pages; none of them was in
      use before, because the heap top only grows. */
  lemma {:induction false} ReservedPages(s: State, n: nat, v: int)
    requires Inv(s) && CanReserve(s, n)
    ensures var t := ReservePages(s, n);
            && (v in t.pages <==> v in s.pages || s.top <= v < s.top + n)
            && (v in s.pages ==> v < s.top && t.pages[v] == s.pages[v])
            && (s.top <= v < s.top + n ==> t.pages[v] == Demand)
    decreases n
  {
    hide *;
    PageBelowTop(s, v);
    if n == 0 {
      ReserveNone(s);
    } else {
      ReserveLess(s, n);
      ReservedPages(s, n - 1, v);
      ReservedLast(s, n);
    }
  }

  lemma PageBelowTop(s: State, v: int)
    requires Inv(s)
    ensures v in s.pages ==> v < s.top
  {
    assert PageOk(s, v);
  }

  lemma ReserveLess(s: State, n: nat)
    requires Inv(s) && CanReserve(s, n) && n > 0
    ensures CanReserve(s, n - 1)
  {
    hide *;
    TopInHeap(s);
    ReserveMeans(s, n);
    ReserveMeans(s, n - 1);
    CostMonotone(s, n);
  }

  lemma ReservedLast(s: State, n: nat)
    requires Inv(s) && CanReserve(s, n) && n > 0 && CanReserve(s, n - 1)
    ensures ReservePages(s, n).pages == ReservePages(s, n - 1).pages[s.top + n - 1 := Demand]
  {
    hide *;
    ReserveNext(s, n, n - 1);
    PageReserved(ReservePages(s, n - 1));
  }

  lemma PageReserved(s: State)
    requires Inv(s) && s.top < HEAP_LIMIT && Available(s.pool) >= NewTables(s.top)
    ensures s.pool.stack != [] && Available(s.pool) >= LowestTable(s.tables, s.top) - 1
    ensures ReservePage(s).pages == s.pages[s.top := Demand]
  {
    hide Inv, NewTables, LowestTable, Available;
    ReservePageKeeps(s);
    TopInHeap(s);
  }

  /** A page in use lies under a level-1 table. */
  lemma PagePath(s: State, low: int, v: int)
    requires Owned(s) && ShapeDownTo(s, low)
    ensures v in s.pages ==> OnPath(1, v) in s.tables
  {
    assert PageOk(s, v) && TableBuilt(s, low, OnPath(1, v));
  }

  // ---- Faults, frees and direct callers ----------------------------------------

  /** page_fault_handler on a demand page. */
  function FaultIn(s: State, v: int): State
    requires Alloc(s.pool).Taken?
  {
    Take(s, Data(v)).(pages := s.pages[v := Mapped(NextFrame(s))])
  }

  lemma FaultInKeeps(s: State, v: int)
    requires Inv(s) && v in s.pages && s.pages[v] == Demand && Available(s.pool) > 0
    ensures Alloc(s.pool).Taken?
    ensures var t := FaultIn(s, v);
            && Inv(t) && t.own.Keys == s.own.Keys
            && t.pages == s.pages[v := Mapped(NextFrame(s))]
            && Available(t.pool) == Available(s.pool) - 1
  {
    AllocOutcome(s.pool);
    var t := FaultIn(s, v);
    TakeKeeps(s, Data(v), t);
    forall k ensures TableBuilt(t, 4, k) { assert TableBuilt(s, 4, k); }
  }

  /** An access to page `v`: a demand page is faulted in first. */
  function Touched(s: State, v: int): State
    requires v in s.pages
    requires s.pages[v] == Demand ==> s.pool.stack != [] && Available(s.pool) > 0
  {
    AllocOutcome(s.pool);
    if s.pages[v] == Demand then FaultIn(s, v) else s
  }

  /** An access maps its page and changes no other; only a fault takes a frame. */
  lemma TouchedPages(s: State, v: int)
    requires v in s.pages
    requires s.pages[v] == Demand ==> s.pool.stack != [] && Available(s.pool) > 0
    ensures var t := Touched(s, v);
            && t.pages.Keys == s.pages.Keys && t.top == s.top && t.pages[v].Mapped?
            && (forall w :: w in s.pages && w != v ==> t.pages[w] == s.pages[w])
            && (s.pages[v].Mapped? ==> t == s)
            && Available(t.pool) == Available(s.pool) - (if s.pages[v].Mapped? then 0 else 1)
  {
    AllocOutcome(s.pool);
  }

  lemma TopInHeap(s: State)
    requires Inv(s)
    ensures HEAP_BASE <= s.top <= HEAP_LIMIT && s.pool.stack != [] && Owned(s)
  {
  }

  lemma TouchRange(s: State, v: int)
    requires Inv(s) && v in s.pages
    ensures HEAP_BASE <= v < s.top <= HEAP_LIMIT && s.pool.stack != []
  {
    assert PageOk(s, v);
  }

  /** One round of MMU_free_pages. */
  function ReleasePage(s: State, v: int): State
    requires v in s.pages
  {
    var t := match s.pages[v] case Demand => s case Mapped(f) => Give(s, f);
    t.(pages := s.pages - {v})
  }

  lemma ReleasePageKeeps(s: State, v: int)
    requires Inv(s) && v in s.pages
    ensures var t := ReleasePage(s, v);
            && Inv(t) && t.own.Keys == s.own.Keys
            && t.top == s.top && t.tables == s.tables && t.pages == s.pages - {v}
            && Available(t.pool) == Available(s.pool) + (if s.pages[v].Mapped? then 1 else 0)
  {
    var t := ReleasePage(s, v);
    assert PageOk(s, v);
    if s.pages[v].Mapped? {
      GiveKeeps(s, s.pages[v].frame, t);
    } else {
      forall f ensures FrameOk(t, f) { assert FrameOk(s, f); }
      forall k ensures TableOk(t, k) { assert TableOk(s, k); }
      forall w ensures PageOk(t, w) { assert PageOk(s, w); }
    }
    forall k ensures TableBuilt(t, 4, k) { assert TableBuilt(s, 4, k); }
  }

  /** How many pages MMU_free_pages releases before an assert stops it. */
  ghost function Releasable(s: State, v: int, n: nat): (k: nat)
    ensures k <= n
    ensures forall i :: v <= i < v + k ==> i in s.pages
    ensures k < n ==> v + k !in s.pages
    decreases n
  {
    if n == 0 || v !in s.pages then 0 else 1 + Releasable(s, v + 1, n - 1)
  }

  ghost function ReleasePages(s: State, v: int, n: nat): (t: State)
    requires Inv(s) && forall i :: v <= i < v + n ==> i in s.pages
    ensures Inv(t) && t.own.Keys == s.own.Keys && t.top == s.top && t.tables == s.tables
    ensures forall i :: i in t.pages <==> i in s.pages && !(v <= i < v + n)
    ensures forall i :: i in t.pages ==> t.pages[i] == s.pages[i]
    ensures Available(t.pool) >= Available(s.pool)
    decreases n
  {
    if n == 0 then s
    else
      hide *;
      var t := ReleasePages(s, v, n - 1);
      ReleasePageKeeps(t, v + n - 1);
      ReleasePage(t, v + n - 1)
  }

  /** The frames behind the mapped pages of a range, in page order. */
  ghost function FramesBehind(s: State, v: int, n: nat): seq<int>
    requires forall i :: v <= i < v + n ==> i in s.pages
    decreases n
  {
    if n == 0 then []
    else
      var w := v + n - 1;
      FramesBehind(s, v, n - 1) + (if s.pages[w].Mapped? then [s.pages[w].frame] else [])
  }

  /** MMU_free_pages puts the frames of its range into the ring in page order, and moves
      nothing else: so the frame of the last mapped page is the next one handed out. */
  lemma {:induction false} ReleasedInOrder(s: State, v: int, n: nat)
    requires Inv(s) && forall i :: v <= i < v + n ==> i in s.pages
    ensures ReleasePages(s, v, n).pool == s.pool.(stack := s.pool.stack + FramesBehind(s, v, n))
    decreases n
  {
    hide *;
    if n == 0 {
      ReleaseNone(s, v);
      FramesBehindNone(s, v);
    } else {
      ReleasedInOrder(s, v, n - 1);
      ReleaseLast(s, v, n);
      ReleasePool(ReleasePages(s, v, n - 1), v + n - 1);
      FramesBehindLast(s, v, n);
      var one := if s.pages[v + n - 1].Mapped? then [s.pages[v + n - 1].frame] else [];
      assert s.pool.stack + FramesBehind(s, v, n - 1) + one == s.pool.stack + (FramesBehind(s, v, n - 1) + one);
    }
  }

  lemma FramesBehindNone(s: State, v: int)
    ensures s.pool.stack + FramesBehind(s, v, 0) == s.pool.stack
  {
  }

  lemma FramesBehindLast(s: State, v: int, n: nat)
    requires n > 0 && forall i :: v <= i < v + n ==> i in s.pages
    ensures FramesBehind(s, v, n) ==
              FramesBehind(s, v, n - 1) + (if s.pages[v + n - 1].Mapped? then [s.pages[v + n - 1].frame] else [])
  {
  }

  lemma ReleaseLast(s: State, v: int, n: nat)
    requires Inv(s) && n > 0 && forall i :: v <= i < v + n ==> i in s.pages
    ensures var t := ReleasePages(s, v, n - 1);
            && v + n - 1 in t.pages && t.pages[v + n - 1] == s.pages[v + n - 1]
            && ReleasePages(s, v, n) == ReleasePage(t, v + n - 1)
  {
    hide Inv, ReleasePage, Available;
  }

  lemma ReleasePool(s: State, v: int)
    requires v in s.pages
    ensures ReleasePage(s, v).pool.base == s.pool.base && ReleasePage(s, v).pool.unpooled == s.pool.unpooled
    ensures ReleasePage(s, v).pool.stack ==
              s.pool.stack + (if s.pages[v].Mapped? then [s.pages[v].frame] else [])
  {
    assert s.pool.stack + [] == s.pool.stack;
  }

  lemma ReleaseNone(s: State, v: int)
    requires Inv(s)
    ensures ReleasePages(s, v, 0) == s
  {
  }

  lemma ReleaseAll(s: State, v: int, n: nat)
    requires Inv(s) && forall i :: v <= i < v + n ==> i in s.pages
    ensures Releasable(s, v, n) == n
    ensures forall w :: w in ReleasePages(s, v, n).pages <==> w in s.pages && !(v <= w < v + n)
  {
    hide Inv;
  }

  /** What the loop of MMU_free_pages does next: the page is still in use exactly
      when the assert on its entry passes. */
  lemma ReleaseNext(s: State, v: int, n: nat, i: nat)
    requires Inv(s) && i < n && i <= Releasable(s, v, n)
    ensures var t := ReleasePages(s, v, i);
            && (v + i in t.pages <==> i < Releasable(s, v, n))
            && (v + i in t.pages ==> ReleasePages(s, v, i + 1) == ReleasePage(t, v + i))
  {
    hide Inv;
  }

  /** A direct caller takes a frame, or gets NULL. */
  function AllocFrame(s: State): State {
    if Alloc(s.pool).Taken? then Take(s, Held) else s
  }

  function FreeFrame(s: State, f: int): State {
    Give(s, f)
  }

  lemma AllocFrameKeeps(s: State)
    requires Inv(s)
    ensures Inv(AllocFrame(s)) && AllocFrame(s).own.Keys == s.own.Keys
    ensures AllocFrame(s) == s <==> Available(s.pool) == 0
  {
    AllocOutcome(s.pool);
    if Alloc(s.pool).Taken? {
      var t := AllocFrame(s);
      TakeKeeps(s, Held, t);
      forall k ensures TableBuilt(t, 4, k) { assert TableBuilt(s, 4, k); }
    }
  }

  lemma FreeFrameKeeps(s: State, f: int)
    requires Inv(s) && f in s.own && s.own[f] == Held
    ensures Inv(FreeFrame(s, f)) && FreeFrame(s, f).own.Keys == s.own.Keys
  {
    var t := FreeFrame(s, f);
    GiveKeeps(s, f, t);
    forall k ensures TableBuilt(t, 4, k) { assert TableBuilt(s, 4, k); }
  }
}
