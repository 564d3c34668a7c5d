/** Whole runs of the memory manager: conservation of frames, cost of page tables,
    and no address handed out twice. */
module MemoryRuns {
  import EntryBits
  import opened MachineWords
  import opened PhysicalMemory
  import opened Sequences
  import opened FramePool
  import opened MemoryState

  datatype Step =
    | TakeFrame                        // MMU_pf_alloc by a direct caller
    | ReturnFrame(frame: int)          // MMU_pf_free by its holder
    | Reserve(count: nat)              // MMU_alloc_pages
    | Release(first: int, count: nat)  // MMU_free_pages
    | Access(page: int)                // a load, with the fault it may cause
    | Store(va: u64, word: u64)        // a client's store through a heap address
    | StoreHeld(frame: int, index: int, word: u64)  // a direct caller's store into its frame
    | Mark(frame: int, index: int, marks: int)      // the processor marks a table's entry as used

  /** What each operation needs not to halt the machine or run out of frames. */
  ghost predicate Enabled(s: State, step: Step) {
    match step
    case TakeFrame => true
    case ReturnFrame(f) => f in s.own && s.own[f] == Held
    case Reserve(n) => CanReserve(s, n)
    case Release(v, n) => n > 0 && forall i :: v <= i < v + n ==> i in s.pages
    case Access(v) => v in s.pages && (s.pages[v] == Demand ==> Available(s.pool) > 0)
    case Store(va, _) =>
      va % 8 == 0 && va / 4096 in s.pages && (s.pages[va / 4096] == Demand ==> Available(s.pool) > 0)
    case StoreHeld(f, i, _) => f in s.own && s.own[f] == Held && 0 <= i < 512
    case Mark(f, i, marks) => f in s.own && s.own[f].Table? && 0 <= i < 512 && EntryBits.Marks(marks)
  }

  ghost function Do(s: State, step: Step): State
    requires Inv(s) && Enabled(s, step)
  {
    match step
    case TakeFrame => AllocFrame(s)
    case ReturnFrame(f) => FreeFrame(s, f)
    case Reserve(n) => ReservePages(s, n)
    case Release(v, n) => ReleasePages(s, v, n)
    case Access(v) => Touched(s, v)
    case Store(va, _) => Touched(s, va / 4096)
    case StoreHeld(_, _, _) => s
    case Mark(_, _, _) => s
  }

  lemma DoKeeps(s: State, step: Step)
    requires Inv(s) && Enabled(s, step)
    ensures Inv(Do(s, step)) && Do(s, step).own.Keys == s.own.Keys
    ensures Do(s, step).top == s.top + (if step.Reserve? then step.count else 0)
  {
    match step
    case TakeFrame => AllocFrameKeeps(s);
    case ReturnFrame(f) => FreeFrameKeeps(s, f);
    case Reserve(n) =>
    case Release(v, n) =>
    case Access(v) => if s.pages[v] == Demand { FaultInKeeps(s, v); }
    case Store(va, _) => if s.pages[va / 4096] == Demand { FaultInKeeps(s, va / 4096); }
    case StoreHeld(_, _, _) =>
    case Mark(_, _, _) =>
    hide Inv, CanReserve, ReleasePages, ReservePages;
  }

  /** Every step of the run can be taken where the run stands. */
  ghost predicate Runs(s: State, steps: seq<Step>)
    requires Inv(s)
    decreases |steps|
  {
    steps == [] || (Enabled(s, steps[0]) && (DoKeeps(s, steps[0]); Runs(Do(s, steps[0]), steps[1..])))
  }

  ghost function Run(s: State, steps: seq<Step>): State
    requires Inv(s) && Runs(s, steps)
    decreases |steps|
  {
    if steps == [] then s else DoKeeps(s, steps[0]); Run(Do(s, steps[0]), steps[1..])
  }

  /** Over every run each managed frame keeps exactly one owner, backed by ring,
      range, tables or pages; no frame appears or disappears. */
  lemma {:induction false} RunKeepsInvariant(s: State, steps: seq<Step>)
    requires Inv(s) && Runs(s, steps)
    ensures Inv(Run(s, steps)) && Run(s, steps).own.Keys == s.own.Keys
    ensures s.top <= Run(s, steps).top
    decreases |steps|
  {
    if steps != [] {
      DoKeeps(s, steps[0]);
      RunKeepsInvariant(Do(s, steps[0]), steps[1..]);
    }
    hide Inv, Do;
  }

  lemma {:induction false} RunAppend(s: State, first: seq<Step>, rest: seq<Step>)
    requires Inv(s) && Runs(s, first)
    requires Inv(Run(s, first)) && Runs(Run(s, first), rest)
    ensures Runs(s, first + rest) && Run(s, first + rest) == Run(Run(s, first), rest)
    decreases |first|
  {
    hide *;
    if first == [] {
      assert first + rest == rest;
      RunNothing(s);
    } else {
      var both := first + rest;
      assert both[0] == first[0] && both[1..] == first[1..] + rest;
      RunHead(s, first);
      RunAppend(Do(s, first[0]), first[1..], rest);
      RunFrom(s, both);
    }
  }

  lemma RunNothing(s: State)
    requires Inv(s)
    ensures Runs(s, []) && Run(s, []) == s
  {
    hide Inv;
  }

  lemma RunHead(s: State, steps: seq<Step>)
    requires Inv(s) && Runs(s, steps) && steps != []
    ensures Enabled(s, steps[0]) && Inv(Do(s, steps[0])) && Runs(Do(s, steps[0]), steps[1..])
    ensures Run(s, steps) == Run(Do(s, steps[0]), steps[1..])
  {
    hide Inv, Do, Enabled;
    DoKeeps(s, steps[0]);
  }

  lemma RunFrom(s: State, steps: seq<Step>)
    requires Inv(s) && steps != [] && Enabled(s, steps[0]) && Inv(Do(s, steps[0])) && Runs(Do(s, steps[0]), steps[1..])
    ensures Runs(s, steps) && Run(s, steps) == Run(Do(s, steps[0]), steps[1..])
  {
    hide Inv, Do, Enabled;
  }

  // ---- Page contents -----------------------------------------------------------

  predicate Releases(step: Step, v: int) {
    step.Release? && step.first <= v < step.first + step.count
  }

  // Where words are kept for somebody: in a heap page or in a frame held directly.
  datatype Place = InPage(page: int) | InFrame(frame: int)

  /** The step gives the place up. */
  predicate Ends(step: Step, at: Place) {
    match at
    case InPage(v) => Releases(step, v)
    case InFrame(f) => step == ReturnFrame(f)
  }

  predicate NeverEnds(steps: seq<Step>, at: Place) {
    forall k :: 0 <= k < |steps| ==> !Ends(steps[k], at)
  }

  predicate StoresTo(step: Step, at: Place, i: int) {
    match at
    case InPage(v) => step.Store? && step.va / 4096 == v && step.va % 4096 / 8 == i
    case InFrame(f) => step.StoreHeld? && step.frame == f && step.index == i
  }

  /** What a step makes of the words at a place. */
  function Stored(step: Step, at: Place, fr: Frame): Frame {
    match at
    case InPage(v) =>
      if step.Store? && step.va / 4096 == v then fr[step.va % 4096 / 8 := step.word] else fr
    case InFrame(f) =>
      if step.StoreHeld? && step.frame == f && 0 <= step.index < 512 then fr[step.index := step.word] else fr
  }

  function WordsAfter(steps: seq<Step>, at: Place, fr: Frame): Frame
    decreases |steps|
  {
    if steps == [] then fr else WordsAfter(steps[1..], at, Stored(steps[0], at, fr))
  }

  predicate NoneStores(steps: seq<Step>, at: Place, i: int) {
    forall k :: 0 <= k < |steps| ==> !StoresTo(steps[k], at, i)
  }

  lemma {:induction false} UnstoredStays(steps: seq<Step>, at: Place, fr: Frame, i: int)
    requires 0 <= i < 512 && NoneStores(steps, at, i)
    ensures WordsAfter(steps, at, fr)[i] == fr[i]
    decreases |steps|
  {
    if steps != [] {
      assert !StoresTo(steps[0], at, i);
      UnstoredStays(steps[1..], at, Stored(steps[0], at, fr), i);
    }
  }

  /** Of several stores to a word the last one counts. */
  lemma {:induction false} LastStoreWins(steps: seq<Step>, at: Place, fr: Frame, i: int, k: nat)
    requires 0 <= i < 512 && k < |steps| && StoresTo(steps[k], at, i) && NoneStores(steps[k + 1..], at, i)
    ensures WordsAfter(steps, at, fr)[i] == steps[k].word
    decreases k
  {
    var next := Stored(steps[0], at, fr);
    if k == 0 {
      UnstoredStays(steps[1..], at, next, i);
    } else {
      assert steps[1..][k - 1] == steps[k] && steps[1..][k..] == steps[k + 1..];
      LastStoreWins(steps[1..], at, next, i, k - 1);
    }
    hide StoresTo, NoneStores;
  }

  // ---- Conservation ------------------------------------------------------------

  ghost function Image<K>(keys: set<K>, image: map<K, int>): set<int> {
    set k | k in keys && k in image :: image[k]
  }

  ghost function FrameOf(s: State): map<int, int> {
    map v | v in MappedPages(s) :: s.pages[v].frame
  }

  ghost function RingFrames(s: State): set<int> { set f | f in s.pool.stack }
  ghost function RangeFrames(s: State): set<int> { set f | f in s.own && Unpooled(s.pool, f) }
  ghost function TableFrames(s: State): set<int> { Image(s.tables.Keys, s.tables) }
  ghost function MappedPages(s: State): set<int> { set v | v in s.pages && s.pages[v].Mapped? }
  ghost function DataFrames(s: State): set<int> { Image(MappedPages(s), FrameOf(s)) }
  ghost function HeldFrames(s: State): set<int> { set f | f in s.own && s.own[f] == Held }

  /** The managed frames split, without overlap, into the record, the ring, the
      range, the tables, the frames behind pages and the frames held directly. */
  lemma Partition(s: State)
    requires Inv(s)
    ensures s.own.Keys == {0} + (RingFrames(s) + (RangeFrames(s) + (TableFrames(s) + (DataFrames(s) + HeldFrames(s)))))
    ensures |s.own| == 1 + |RingFrames(s)| + |RangeFrames(s)| + |TableFrames(s)| + |DataFrames(s)| + |HeldFrames(s)|
  {
    hide Inv, RingFrames, RangeFrames, TableFrames, DataFrames, HeldFrames;
    KindSets(s);
    PeelAll(s);
  }

  lemma KindSets(s: State)
    requires Inv(s)
    ensures OfKind(s, 0, 0) == {0}
    ensures OfKind(s, 1, 1) == RingFrames(s)
    ensures OfKind(s, 2, 2) == RangeFrames(s)
    ensures OfKind(s, 3, 3) == TableFrames(s)
    ensures OfKind(s, 4, 4) == DataFrames(s)
    ensures OfKind(s, 5, 5) == HeldFrames(s)
  {
    forall f ensures SortedAt(s, f) { FrameSort(s, f); }
    hide Inv, RingFrames, RangeFrames, TableFrames, DataFrames, HeldFrames;
    forall f ensures f in OfKind(s, 0, 0) <==> f in {0} { assert SortedAt(s, f); }
    forall f ensures f in OfKind(s, 1, 1) <==> f in RingFrames(s) { assert SortedAt(s, f); }
    forall f ensures f in OfKind(s, 2, 2) <==> f in RangeFrames(s) { assert SortedAt(s, f); }
    forall f ensures f in OfKind(s, 3, 3) <==> f in TableFrames(s) { assert SortedAt(s, f); }
    forall f ensures f in OfKind(s, 4, 4) <==> f in DataFrames(s) { assert SortedAt(s, f); }
    forall f ensures f in OfKind(s, 5, 5) <==> f in HeldFrames(s) { assert SortedAt(s, f); }
  }

  lemma PeelAll(s: State)
    ensures s.own.Keys == OfKind(s, 0, 0)
            + (OfKind(s, 1, 1) + (OfKind(s, 2, 2) + (OfKind(s, 3, 3) + (OfKind(s, 4, 4) + OfKind(s, 5, 5)))))
    ensures |s.own| == |OfKind(s, 0, 0)| + |OfKind(s, 1, 1)| + |OfKind(s, 2, 2)| + |OfKind(s, 3, 3)|
            + |OfKind(s, 4, 4)| + |OfKind(s, 5, 5)|
  {
    hide Kind;
    assert OfKind(s, 0, 5) == s.own.Keys;
    hide OfKind;
    Peel(s, 0);
    Peel(s, 1);
    Peel(s, 2);
    Peel(s, 3);
    Peel(s, 4);
    assert |s.own| == |s.own.Keys|;
  }

  /** The ledger's owner as a number, ring and range told apart. */
  ghost function Kind(s: State, f: int): (k: int)
    requires f in s.own
    ensures 0 <= k <= 5
  {
    match s.own[f]
    case Meta => 0
    case Pooled => if Unpooled(s.pool, f) then 2 else 1
    case Table(_, _) => 3
    case Data(_) => 4
    case Held => 5
  }

  ghost function OfKind(s: State, lo: int, hi: int): set<int> {
    set f | f in s.own && lo <= Kind(s, f) <= hi
  }

  lemma Peel(s: State, i: int)
    requires 0 <= i < 5
    ensures OfKind(s, i, 5) == OfKind(s, i, i) + OfKind(s, i + 1, 5)
    ensures |OfKind(s, i, 5)| == |OfKind(s, i, i)| + |OfKind(s, i + 1, 5)|
  {
    hide Kind;
    assert OfKind(s, i, i) !! OfKind(s, i + 1, 5);
  }

  /** Each set of frames collects exactly the frames whose ledger entry is of its kind. */
  ghost predicate SortedAt(s: State, f: int) {
    && (f == 0 <==> f in s.own && Kind(s, f) == 0)
    && (f in RingFrames(s) <==> f in s.own && Kind(s, f) == 1)
    && (f in RangeFrames(s) <==> f in s.own && Kind(s, f) == 2)
    && (f in TableFrames(s) <==> f in s.own && Kind(s, f) == 3)
    && (f in DataFrames(s) <==> f in s.own && Kind(s, f) == 4)
    && (f in HeldFrames(s) <==> f in s.own && Kind(s, f) == 5)
  }

  lemma Preimage<K>(keys: set<K>, image: map<K, int>, x: int) returns (k: K)
    requires x in Image(keys, image)
    ensures k in keys && k in image && image[k] == x
  {
    k :| k in keys && k in image && image[k] == x;
  }

  lemma FrameSort(s: State, f: int)
    requires Inv(s)
    ensures SortedAt(s, f)
  {
    assert FrameOk(s, f);
    if f in TableFrames(s) {
      var k := Preimage(s.tables.Keys, s.tables, f);
      assert TableOk(s, k);
    }
    if f in DataFrames(s) {
      var v := Preimage(MappedPages(s), FrameOf(s), f);
      assert PageOk(s, v);
    }
    if f in s.own && s.own[f].Data? { assert s.own[f].page in MappedPages(s); }
    if f in s.own && s.own[f].Table? { assert (s.own[f].level, s.own[f].prefix) in s.tables.Keys; }
  }

  lemma {:induction false} SeqSetSize(s: seq<int>)
    requires Distinct(s)
    ensures |(set f | f in s)| == |s|
  {
    if s != [] {
      var n := |s| - 1;
      var r := s[..n];
      assert Distinct(r);
      SeqSetSize(r);
      assert s == r + [s[n]];
      assert (set f | f in s) == (set f | f in r) + {s[n]};
    }
  }

  lemma {:induction false} ImageSize<K(!new)>(keys: set<K>, image: map<K, int>)
    requires keys <= image.Keys
    requires forall k, l :: k in keys && l in keys && image[k] == image[l] ==> k == l
    ensures |Image(keys, image)| == |keys|
  {
    if keys != {} {
      var k :| k in keys;
      ImageSize(keys - {k}, image);
      assert Image(keys, image) == Image(keys - {k}, image) + {image[k]};
    }
  }

  /** Conservation: record, ring, range, tables, mapped pages and direct holdings add
      up to the managed frames. */
  lemma FramesAddUp(s: State)
    requires Inv(s)
    ensures |s.own| == 1 + |s.pool.stack| + s.pool.unpooled + |s.tables| + |MappedPages(s)| + |HeldFrames(s)|
  {
    Partition(s);
    SeqSetSize(s.pool.stack);
    RangeFramesSize(s);
    TableFramesSize(s);
    DataFramesSize(s);
    hide Inv, RingFrames, RangeFrames, TableFrames, DataFrames;
  }

  lemma RangeFramesSize(s: State)
    requires Inv(s)
    ensures |RangeFrames(s)| == s.pool.unpooled
  {
    var r := FramePool.Run(s.pool.base, s.pool.unpooled);
    SeqSetSize(r);
    forall f ensures f in RangeFrames(s) <==> f in r {
      assert FrameOk(s, f);
      if Unpooled(s.pool, f) { assert r[f - s.pool.base] == f; }
    }
    assert RangeFrames(s) == set f | f in r;
    hide Inv;
  }

  lemma TableFramesSize(s: State)
    requires Inv(s)
    ensures |TableFrames(s)| == |s.tables|
  {
    forall k, l | k in s.tables && l in s.tables && s.tables[k] == s.tables[l] ensures k == l {
      assert TableOk(s, k) && TableOk(s, l);
    }
    ImageSize(s.tables.Keys, s.tables);
    assert |s.tables| == |s.tables.Keys|;
    hide Inv;
  }

  lemma DataFramesSize(s: State)
    requires Inv(s)
    ensures |DataFrames(s)| == |MappedPages(s)|
  {
    forall v, w | v in MappedPages(s) && w in MappedPages(s) && FrameOf(s)[v] == FrameOf(s)[w] ensures v == w {
      assert PageOk(s, v) && PageOk(s, w);
    }
    ImageSize(MappedPages(s), FrameOf(s));
    hide Inv;
  }

  // ---- Cost of page tables -----------------------------------------------------

  /** n / d rounded up */
  function CeilDiv(n: int, d: int): int
    requires d > 0
  {
    (n + d - 1) / d
  }

  /** Counting the first pages of tables one by one gives three rounded-up quotients. */
  lemma {:induction false} TableCountClosed(n: nat)
    ensures TableCount(n) == CeilDiv(n, 512) + CeilDiv(n, 262144) + CeilDiv(n, 134217728)
  {
    hide *;
    TableCountStep(n);
    if n == 0 {
      CeilZero();
    } else {
      TableCountClosed(n - 1);
      CeilStep(n - 1);
    }
  }

  lemma TableCountStep(n: nat)
    ensures TableCount(n) == if n == 0 then 0 else TableCount(n - 1) + NewTables(HEAP_BASE + (n - 1))
  {
    hide NewTables;
  }

  lemma CeilZero()
    ensures CeilDiv(0, 512) == 0 && CeilDiv(0, 262144) == 0 && CeilDiv(0, 134217728) == 0
  {
  }

  lemma CeilStep(n: nat)
    ensures CeilDiv(n + 1, 512) + CeilDiv(n + 1, 262144) + CeilDiv(n + 1, 134217728) ==
              CeilDiv(n, 512) + CeilDiv(n, 262144) + CeilDiv(n, 134217728) + NewTables(HEAP_BASE + n)
  {
    hide CeilDiv;
    CeilStepBy(n, 512, 524288);
    CeilStepBy(n, 262144, 1024);
    CeilStepBy(n, 134217728, 2);
  }

  /** The rounded-up quotient grows exactly at multiples; HEAP_BASE is one of them. */
  lemma CeilStepBy(n: nat, d: int, m: int)
    requires (d == 512 && m == 524288) || (d == 262144 && m == 1024) || (d == 134217728 && m == 2)
    ensures CeilDiv(n + 1, d) == CeilDiv(n, d) + (if (HEAP_BASE + n) % d == 0 then 1 else 0)
  {
    var q, r := n / d, n % d;
    assert n == d * q + r;
    assert d * (q + 1) == d * q + d && d * (q + m) == d * q + d * m && d * m == HEAP_BASE;
    Divide(n + d, d, q + 1, r);
    Divide(HEAP_BASE + n, d, q + m, r);
    if r == 0 { Divide(n + d - 1, d, q, d - 1); } else { Divide(n + d - 1, d, q + 1, r - 1); }
  }

  lemma Divide(a: int, d: int, q: int, r: int)
    requires d == 512 || d == 262144 || d == 134217728
    requires a == d * q + r && 0 <= r < d
    ensures a / d == q && a % d == r
  {
    if d == 512 {
      assert a == 512 * q + r;
    } else if d == 262144 {
      assert a == 262144 * q + r;
    } else {
      assert a == 134217728 * q + r;
    }
  }

  /** Pages that a run reserves. */
  function Reserved(steps: seq<Step>): nat
    decreases |steps|
  {
    if steps == [] then 0 else (if steps[0].Reserve? then steps[0].count else 0) + Reserved(steps[1..])
  }

  /** After any run from start-up that reserved N pages the tables number exactly
      2 + ceil(N / 512) + ceil(N / 512^2) + ceil(N / 512^3), whatever was freed,
      touched or taken in between. */
  lemma RunTableCost(p: Pool, steps: seq<Step>)
    requires WellFormed(p) && Available(p) >= 2
    requires Inv(Boot(p)) && Runs(Boot(p), steps)
    ensures var t, n := Run(Boot(p), steps), Reserved(steps);
            && t.top == HEAP_BASE + n
            && |t.tables| == 2 + CeilDiv(n, 512) + CeilDiv(n, 262144) + CeilDiv(n, 134217728)
            && |TableFrames(t)| == |t.tables|
  {
    hide *;
    var b, t, n := Boot(p), Run(Boot(p), steps), Reserved(steps);
    BootTop(p);
    RunTop(b, steps);
    RunKeepsInvariant(b, steps);
    TablesCounted(t);
    assert t.top - HEAP_BASE == n;
    TableCountClosed(n);
    TableFramesSize(t);
  }

  lemma BootTop(p: Pool)
    requires WellFormed(p) && Available(p) >= 2
    ensures Boot(p).top == HEAP_BASE
  {
  }

  lemma {:induction false} RunTop(s: State, steps: seq<Step>)
    requires Inv(s) && Runs(s, steps)
    ensures Run(s, steps).top == s.top + Reserved(steps)
    decreases |steps|
  {
    if steps != [] {
      DoKeeps(s, steps[0]);
      RunTop(Do(s, steps[0]), steps[1..]);
    }
    hide Inv, Do;
  }

  /** Reserving pages takes no frame for data. */
  lemma ReserveTakesOnlyTables(s: State, n: nat)
    requires Inv(s) && CanReserve(s, n)
    ensures MappedPages(ReservePages(s, n)) == MappedPages(s)
    ensures Available(ReservePages(s, n).pool) == Available(s.pool) - (|ReservePages(s, n).tables| - |s.tables|)
  {
    hide Inv, CanReserve, ReservePages;
    forall v ensures v in MappedPages(ReservePages(s, n)) <==> v in MappedPages(s) {
      ReservedPages(s, n, v);
    }
    TablesCounted(s);
    TablesCounted(ReservePages(s, n));
  }

  lemma TablesCounted(s: State)
    requires Inv(s)
    ensures |s.tables| == 2 + TableCount(s.top - HEAP_BASE)
  {
  }

  // ---- Addresses over a run ----------------------------------------------------

  /** A page below the top that is not in use never comes back into use. */
  lemma {:induction false} FreedStaysFree(s: State, steps: seq<Step>, v: int)
    requires Inv(s) && Runs(s, steps) && v < s.top && v !in s.pages
    ensures v !in Run(s, steps).pages
    decreases |steps|
  {
    if steps != [] {
      DoKeeps(s, steps[0]);
      if steps[0].Reserve? { ReservedPages(s, steps[0].count, v); }
      assert v !in Do(s, steps[0]).pages;
      FreedStaysFree(Do(s, steps[0]), steps[1..], v);
    }
    hide Inv, CanReserve, ReservePages;
  }

  /** So any later call of MMU_free_pages on a range with such a page in it stops at
      an assert, at the latest at that page, whatever happened since and wherever the
      two calls start. */
  lemma SecondFreeIsCaught(s: State, v: int, n: nat, steps: seq<Step>, w: int, u: int, k: nat)
    requires Inv(s) && Enabled(s, Release(v, n)) && v <= w < v + n
    requires Inv(ReleasePages(s, v, n)) && Runs(ReleasePages(s, v, n), steps)
    requires u <= w < u + k
    ensures var t := Run(ReleasePages(s, v, n), steps);
            Inv(t) && !Enabled(t, Release(u, k)) && Releasable(t, u, k) <= w - u
  {
    hide Inv, ReleasePages, Run, Runs;
    var r := ReleasePages(s, v, n);
    PageBelowTop(s, w);
    assert w !in r.pages && w < r.top;
    FreedStaysFree(r, steps, w);
    RunKeepsInvariant(r, steps);
  }

  /** The ranges that the run's MMU_alloc_pages calls return. */
  ghost function Ranges(s: State, steps: seq<Step>): seq<(int, nat)>
    requires Inv(s) && Runs(s, steps)
    decreases |steps|
  {
    if steps == [] then []
    else
      DoKeeps(s, steps[0]);
      var rest := Ranges(Do(s, steps[0]), steps[1..]);
      if steps[0].Reserve? then [(s.top, steps[0].count)] + rest else rest
  }

  lemma {:induction false} RangesInside(s: State, steps: seq<Step>, i: nat)
    requires Inv(s) && Runs(s, steps) && i < |Ranges(s, steps)|
    ensures var r := Ranges(s, steps)[i]; s.top <= r.0 && r.0 + r.1 <= Run(s, steps).top
    decreases |steps|
  {
    if steps != [] {
      DoKeeps(s, steps[0]);
      RunKeepsInvariant(Do(s, steps[0]), steps[1..]);
      if !steps[0].Reserve? {
        RangesInside(Do(s, steps[0]), steps[1..], i);
      } else if i > 0 {
        RangesInside(Do(s, steps[0]), steps[1..], i - 1);
      }
    }
    hide Inv, Do;
  }

  /** No two allocated ranges of a run overlap, even after frees. */
  lemma {:induction false} RangesDisjoint(s: State, steps: seq<Step>, i: nat, j: nat)
    requires Inv(s) && Runs(s, steps) && i < j < |Ranges(s, steps)|
    ensures var r := Ranges(s, steps); r[i].0 + r[i].1 <= r[j].0
    decreases |steps|
  {
    hide Inv, Do, Enabled, Run;
    DoKeeps(s, steps[0]);
    var t := Do(s, steps[0]);
    if !steps[0].Reserve? {
      RangesDisjoint(t, steps[1..], i, j);
    } else if i > 0 {
      RangesDisjoint(t, steps[1..], i - 1, j - 1);
    } else {
      RangesInside(t, steps[1..], j - 1);
    }
  }
}
