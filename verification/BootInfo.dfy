/** MMU_init_pf: from the Multiboot2 boot information in memory to the first state of
    the frame allocator.  Offsets count bytes from the start of the boot information. */
module BootInformation {
  import opened MachineWords
  import FrameRing
  import opened PhysicalMemory
  import opened FramePool
  import opened FrameAllocation


  const END_TAG := 0
  const MMAP_TAG := 6
  const ELF_TAG := 9
  const USABLE := 1

  datatype Option<T> = None | Some(value: T)

  datatype Region = Region(base: int, length: int, kind: int)
  datatype Section = Section(addr: int, size: int)

  /** Little-endian words; bytes outside the information read as 0. */
  function Byte(b: seq<u8>, off: int): u8 {
    if 0 <= off < |b| then b[off] else 0
  }

  function Le32(b: seq<u8>, off: int): int {
    Byte(b, off) + 0x100 * Byte(b, off + 1) + 0x1_0000 * Byte(b, off + 2) + 0x100_0000 * Byte(b, off + 3)
  }

  function Le64(b: seq<u8>, off: int): int {
    Le32(b, off) + 0x1_0000_0000 * Le32(b, off + 4)
  }

  // ---- Rounding ----------------------------------------------------------------

  /** round_up_nearest_mult */
  function RoundUp(val: int, mult: int): int
    requires mult > 0
  {
    if val % mult != 0 then val + (mult - val % mult) else val
  }

  /** round_down_nearest_mult */
  function RoundDown(val: int, mult: int): int
    requires mult > 0
  {
    val - val % mult
  }

  /** Whole frames of a stretch of memory: those from the rounded-up start to the
      rounded-down end. */
  lemma WholeFrames(start: int, end: int, f: int)
    ensures start <= 4096 * f && 4096 * (f + 1) <= end <==>
              RoundUp(start, 4096) <= 4096 * f && 4096 * (f + 1) <= RoundDown(end, 4096)
    ensures RoundUp(start, 4096) % 4096 == 0 && RoundDown(end, 4096) % 4096 == 0
  {
  }

  // ---- Tags (section 3.6 of the Multiboot2 Specification 2.0) ------------------

  function TagType(b: seq<u8>, off: int): int { Le32(b, off) }

  function TagSize(b: seq<u8>, off: int): int { Le32(b, off + 4) }

  /** From `off` on there is a list of tags, 8 bytes or longer, closed by an end tag. */
  predicate TagsFrom(b: seq<u8>, off: nat)
    decreases |b| - off
  {
    && off + 8 <= |b| && TagSize(b, off) >= 8
    && (TagType(b, off) == END_TAG || TagsFrom(b, off + RoundUp(TagSize(b, off), 8)))
  }

  /** Offsets of the tags from `off` to the end tag. */
  function Tags(b: seq<u8>, off: nat): (tags: seq<nat>)
    requires TagsFrom(b, off)
    ensures tags != [] && tags[0] == off
    decreases |b| - off
  {
    if TagType(b, off) == END_TAG then [off] else [off] + Tags(b, off + RoundUp(TagSize(b, off), 8))
  }

  /** `r` is the first tag of the wanted type, None if there is none. */
  ghost predicate FirstOfType(b: seq<u8>, tags: seq<nat>, wanted: int, r: Option<nat>) {
    match r
    case None => forall i :: 0 <= i < |tags| ==> TagType(b, tags[i]) != wanted
    case Some(off) => exists i :: 0 <= i < |tags| && tags[i] == off && TagType(b, off) == wanted
                        && forall j :: 0 <= j < i ==> TagType(b, tags[j]) != wanted
  }

  lemma FirstOfRest(b: seq<u8>, head: nat, rest: seq<nat>, wanted: int, r: Option<nat>)
    requires TagType(b, head) != wanted && FirstOfType(b, rest, wanted, r)
    ensures FirstOfType(b, [head] + rest, wanted, r)
  {
    var tags := [head] + rest;
    if r.Some? {
      var i :| 0 <= i < |rest| && rest[i] == r.value && TagType(b, r.value) == wanted
                 && forall j :: 0 <= j < i ==> TagType(b, rest[j]) != wanted;
      assert tags[i + 1] == r.value;
    }
  }

  /** What find_tag's loop returns from `off` on. */
  ghost function Find(b: seq<u8>, off: nat, wanted: int): (r: Option<nat>)
    requires TagsFrom(b, off)
    decreases |b| - off
  {
    if TagType(b, off) == wanted then Some(off)
    else if TagType(b, off) == END_TAG then None
    else Find(b, off + RoundUp(TagSize(b, off), 8), wanted)
  }

  lemma {:induction false} FindIsFirst(b: seq<u8>, off: nat, wanted: int)
    requires TagsFrom(b, off)
    ensures FirstOfType(b, Tags(b, off), wanted, Find(b, off, wanted))
    decreases |b| - off
  {
    var tags := Tags(b, off);
    if TagType(b, off) == wanted {
      assert tags[0] == off;
    } else if TagType(b, off) != END_TAG {
      var next := off + RoundUp(TagSize(b, off), 8);
      FindIsFirst(b, next, wanted);
      FirstOfRest(b, off, Tags(b, next), wanted, Find(b, off, wanted));
    }
  }

  /** find_tag: the loop ends, at the first tag of the type or with NULL. */
  method FindTag(b: seq<u8>, wanted: int) returns (r: Option<nat>)
    requires TagsFrom(b, 8)
    ensures FirstOfType(b, Tags(b, 8), wanted, r)
    ensures r == Find(b, 8, wanted)
  {
    FindIsFirst(b, 8, wanted);
    var curr: nat := 8;
    while TagType(b, curr) != wanted
      invariant TagsFrom(b, curr) && Find(b, curr, wanted) == Find(b, 8, wanted)
      decreases |b| - curr
    {
      var kind, size := TagType(b, curr), TagSize(b, curr);
      if kind == END_TAG {
        return None;
      }
      curr := curr + RoundUp(size, 8);
    }
    return Some(curr);
  }

  // ---- Memory map and sections -------------------------------------------------

  function RegionCount(b: seq<u8>, tag: nat): int {
    (TagSize(b, tag) - 16) / 24
  }

  function RegionAt(b: seq<u8>, tag: nat, i: nat): Region {
    Region(Le64(b, tag + 16 + 24 * i), Le64(b, tag + 24 + 24 * i), Le32(b, tag + 32 + 24 * i))
  }

  function SectionAt(b: seq<u8>, tag: nat, i: nat): Section {
    Section(Le64(b, tag + 20 + 64 * i + 16), Le64(b, tag + 20 + 64 * i + 32))
  }

  /** The asserts of get_mmap_info. */
  predicate MmapOk(b: seq<u8>, tag: nat) {
    TagType(b, tag) == MMAP_TAG && Le32(b, tag + 8) == 24 && Le32(b, tag + 12) == 0
    && TagSize(b, tag) >= 16 && (TagSize(b, tag) - 16) % 24 == 0
  }

  /** The asserts of get_elf_info. */
  predicate ElfOk(b: seq<u8>, tag: nat) {
    TagType(b, tag) == ELF_TAG && Le32(b, tag + 12) == 64
    && TagSize(b, tag) >= 20 && Le32(b, tag + 8) == (TagSize(b, tag) - 20) / 64
  }

  /** The map has one usable region at address 0, entry `lo`, and one above, entry `up`. */
  ghost predicate TwoUsable(b: seq<u8>, tag: nat, lo: nat, up: nat) {
    && lo < RegionCount(b, tag) && up < RegionCount(b, tag)
    && forall i: nat :: i < RegionCount(b, tag) ==>
         var r := RegionAt(b, tag, i);
         && (r.kind == USABLE && r.base == 0 <==> i == lo)
         && (r.kind == USABLE && r.base != 0 <==> i == up)
  }

  /** get_usable_mem_info_ptrs */
  method UsableRegions(b: seq<u8>, tag: nat, ghost lo: nat, ghost up: nat) returns (lower: Region, upper: Region)
    requires TwoUsable(b, tag, lo, up)
    ensures lower == RegionAt(b, tag, lo) && upper == RegionAt(b, tag, up)
  {
    lower, upper := Region(0, 0, 0), Region(0, 0, 0);
    var i: nat, cnt := 0, 0;
    while i < RegionCount(b, tag)
      invariant i <= RegionCount(b, tag)
      invariant cnt == (if lo < i then 1 else 0) + (if up < i then 1 else 0)
      invariant lo < i ==> lower == RegionAt(b, tag, lo)
      invariant up < i ==> upper == RegionAt(b, tag, up)
    {
      var curr := RegionAt(b, tag, i);
      if curr.kind == 1 {
        cnt := cnt + 1;
        if curr.base == 0 {
          lower := curr;
        } else {
          upper := curr;
        }
      }
      i := i + 1;
    }
    assert cnt == 2;
  }

  // ---- Start-up of the frame allocator -----------------------------------------

  /** Boot information from which MMU_init_pf passes all its asserts, and RAM that
      holds what the map describes. */
  ghost predicate Bootable(b: seq<u8>, m: Memory, mmap: nat, elf: nat, lo: nat, up: nat) {
    && TagsFrom(b, 8) && Find(b, 8, MMAP_TAG) == Some(mmap) && Find(b, 8, ELF_TAG) == Some(elf)
    && MmapOk(b, mmap) && ElfOk(b, elf) && Le32(b, elf + 8) >= 2
    && TwoUsable(b, mmap, lo, up)
    && var lower, upper, last := RegionAt(b, mmap, lo), RegionAt(b, mmap, up), SectionAt(b, elf, Le32(b, elf + 8) - 1);
       && 4096 <= lower.length <= upper.base
       && upper.base == SectionAt(b, elf, 1).addr
       && upper.base <= last.addr + last.size
       && RoundUp(last.addr + last.size, 4096) <= RoundDown(upper.base + upper.length, 4096)
       && upper.base + upper.length <= 4096 * |m|
       && |m| <= MAX_FRAMES
  }

  /** The pool that start-up leaves, in the source's own terms. */
  ghost function StartPool(b: seq<u8>, mmap: nat, elf: nat, lo: nat, up: nat): Pool
    requires RoundDown(RegionAt(b, mmap, lo).length, 4096) >= 4096 && Le32(b, elf + 8) >= 1
    requires var last, upper := SectionAt(b, elf, Le32(b, elf + 8) - 1), RegionAt(b, mmap, up);
             RoundUp(last.addr + last.size, 4096) <= RoundDown(upper.base + upper.length, 4096)
  {
    var last, upper := SectionAt(b, elf, Le32(b, elf + 8) - 1), RegionAt(b, mmap, up);
    var upperBase := RoundUp(last.addr + last.size, 4096);
    Pool(Run(1, RoundDown(RegionAt(b, mmap, lo).length, 4096) / 4096 - 1), upperBase / 4096,
         (RoundDown(upper.base + upper.length, 4096) - upperBase) / 4096)
  }

  // ---- The boot information in memory ------------------------------------------

  function Weight(k: int): (w: int)
    ensures w > 0
  {
    if k == 0 then 1 else if k == 1 then 0x100 else if k == 2 then 0x1_0000 else if k == 3 then 0x100_0000
    else if k == 4 then 0x1_0000_0000 else if k == 5 then 0x100_0000_0000 else if k == 6 then 0x1_0000_0000_0000
    else 0x100_0000_0000_0000
  }

  /** The byte at address `a`: words lie in memory with their low byte first. */
  function ByteAt(m: Memory, a: int): u8 {
    if 0 <= a && a / 4096 < |m| then m[a / 4096][a % 4096 / 8] / Weight(a % 8) % 256 else 0
  }

  // ---- Words and bytes ---------------------------------------------------------

  lemma Horner(w: int, q: int, r: int)
    requires w == 0x100 * q + r && 0 <= r < 0x100
    ensures w / 0x100 == q && w % 0x100 == r
  {
  }

  /** Dividing by the next weight is dividing by 256 once more. */
  lemma NextWeight(w: int, j: int)
    requires 0 <= w && 0 <= j < 7
    ensures w / Weight(j + 1) == w / Weight(j) / 0x100
  {
    var c := Weight(j);
    var q := w / c;
    var r := w - c * q;
    assert 0 <= r < c;
    var p, s := q / 0x100, q % 0x100;
    assert w == c * 0x100 * p + (c * s + r);
    assert 0 <= c * s + r < c * 0x100;
  }

  /** A word is the weighted sum of its bytes. */
  lemma WordOfBytes(w: u64)
    ensures w == w % 0x100 + 0x100 * (w / 0x100 % 0x100) + 0x1_0000 * (w / 0x1_0000 % 0x100)
               + 0x100_0000 * (w / 0x100_0000 % 0x100) + 0x1_0000_0000 * (w / 0x1_0000_0000 % 0x100)
               + 0x100_0000_0000 * (w / 0x100_0000_0000 % 0x100) + 0x1_0000_0000_0000 * (w / 0x1_0000_0000_0000 % 0x100)
               + 0x100_0000_0000_0000 * (w / 0x100_0000_0000_0000 % 0x100)
  {
    NextWeight(w, 0);
    NextWeight(w, 1);
    NextWeight(w, 2);
    NextWeight(w, 3);
    NextWeight(w, 4);
    NextWeight(w, 5);
    NextWeight(w, 6);
    TopByte(w);
    LowByte(w);
    LowByte(w / 0x100);
    LowByte(w / 0x1_0000);
    LowByte(w / 0x100_0000);
    LowByte(w / 0x1_0000_0000);
    LowByte(w / 0x100_0000_0000);
    LowByte(w / 0x1_0000_0000_0000);
  }

  lemma LowByte(w: int)
    ensures w == w % 0x100 + 0x100 * (w / 0x100)
  {
  }

  lemma TopByte(w: u64)
    ensures w / 0x100_0000_0000_0000 % 0x100 == w / 0x100_0000_0000_0000
  {
  }

  /** A 64-bit field of the boot information, where it is aligned, is the word of memory
      that holds it. */
  lemma FieldIsWord(m: Memory, info: int, len: nat, off: int)
    requires 0 <= info && info % 8 == 0 && 0 <= off && off % 8 == 0 && off + 8 <= len
    requires (info + off) / 4096 < |m|
    ensures var a := info + off;
            Le64(BytesAt(m, info, len), off) == m[a / 4096][a % 4096 / 8]
  {
    hide *;
    var a := info + off;
    WordIndex(a);
    var w := m[a / 4096][a % 4096 / 8];
    forall j | 0 <= j < 8 ensures Byte(BytesAt(m, info, len), off + j) == w / Weight(j) % 0x100 {
      FieldByte(m, info, len, off, j);
    }
    WordOfBytes(w);
    FieldSum(BytesAt(m, info, len), off, w);
  }

  lemma FieldSum(b: seq<u8>, off: int, w: u64)
    requires forall j :: 0 <= j < 8 ==> Byte(b, off + j) == w / Weight(j) % 0x100
    requires w == w % 0x100 + 0x100 * (w / 0x100 % 0x100) + 0x1_0000 * (w / 0x1_0000 % 0x100)
               + 0x100_0000 * (w / 0x100_0000 % 0x100) + 0x1_0000_0000 * (w / 0x1_0000_0000 % 0x100)
               + 0x100_0000_0000 * (w / 0x100_0000_0000 % 0x100) + 0x1_0000_0000_0000 * (w / 0x1_0000_0000_0000 % 0x100)
               + 0x100_0000_0000_0000 * (w / 0x100_0000_0000_0000 % 0x100)
    ensures Le64(b, off) == w
  {
    hide Byte;
    assert Byte(b, off + 0) == w / Weight(0) % 0x100 && Byte(b, off + 1) == w / Weight(1) % 0x100;
    assert Byte(b, off + 2) == w / Weight(2) % 0x100 && Byte(b, off + 3) == w / Weight(3) % 0x100;
    assert Byte(b, off + 4) == w / Weight(4) % 0x100 && Byte(b, off + 5) == w / Weight(5) % 0x100;
    assert Byte(b, off + 6) == w / Weight(6) % 0x100 && Byte(b, off + 7) == w / Weight(7) % 0x100;
    assert w / 1 == w;
  }

  lemma FieldByte(m: Memory, info: int, len: nat, off: int, j: int)
    requires 0 <= info && info % 8 == 0 && 0 <= off && off % 8 == 0 && off + 8 <= len && 0 <= j < 8
    requires (info + off) / 4096 < |m|
    ensures 0 <= (info + off) / 4096 && 0 <= (info + off) % 4096 / 8 < 512
    ensures Byte(BytesAt(m, info, len), off + j) ==
              m[(info + off) / 4096][(info + off) % 4096 / 8] / Weight(j) % 0x100
  {
    hide *;
    var a := info + off;
    assert a % 8 == 0 by { AlignedSum(info, off); }
    WordIndex(a);
    ByteRead(m, info, len, off + j);
    ByteOfWord(m, a, j);
  }

  lemma AlignedSum(a: int, b: int)
    requires a % 8 == 0 && b % 8 == 0
    ensures (a + b) % 8 == 0
  {
    assert a + b == 8 * (a / 8 + b / 8);
  }

  lemma ByteRead(m: Memory, info: int, len: nat, k: int)
    requires 0 <= k < len
    ensures Byte(BytesAt(m, info, len), k) == ByteAt(m, info + k)
  {
    hide ByteAt;
  }

  lemma ByteOfWord(m: Memory, a: int, j: int)
    requires 0 <= a && a % 8 == 0 && 0 <= j < 8 && a / 4096 < |m|
    ensures 0 <= a / 4096 && 0 <= a % 4096 / 8 < 512
    ensures ByteAt(m, a + j) == m[a / 4096][a % 4096 / 8] / Weight(j) % 0x100
  {
    hide Weight;
    WordIndex(a);
    SameWord(a, j);
  }

  lemma SameWord(a: int, j: int)
    requires 0 <= a && a % 8 == 0 && 0 <= j < 8
    ensures (a + j) / 4096 == a / 4096 && (a + j) % 4096 / 8 == a % 4096 / 8 && (a + j) % 8 == j
  {
    var k := a / 8;
    var q, i := k / 512, k % 512;
    assert a == 8 * k && k == 512 * q + i;
    InPage(a, q, 8 * i);
    InPage(a + j, q, 8 * i + j);
    InWord(8 * i, i, 0);
    InWord(8 * i + j, i, j);
    InWord(a + j, k, j);
  }

  lemma InPage(a: int, q: int, r: int)
    requires a == 4096 * q + r && 0 <= r < 4096
    ensures a / 4096 == q && a % 4096 == r
  {
  }

  lemma InWord(a: int, q: int, r: int)
    requires a == 8 * q + r && 0 <= r < 8
    ensures a / 8 == q && a % 8 == r
  {
  }

  function BytesAt(m: Memory, info: int, len: nat): seq<u8> {
    seq<u8>(len, k => ByteAt(m, info + k))
  }

  /** Words that start-up writes before it has read everything: the links of the first
      `n` frames and the record in frame 0. */
  predicate Overwritten(f: int, i: int, n: int) {
    0 <= f < n && (i < 2 || (f == 0 && i < 5))
  }

  predicate SparedAt(a: int, n: int) {
    0 <= a ==> !Overwritten(a / 4096, a % 4096 / 8, n)
  }

  /** No byte of the boot information lies where start-up writes.  Anywhere else will
      do, in the lower region too. */
  ghost predicate Spared(info: int, len: nat, n: int) {
    forall a :: info <= a < info + len ==> SparedAt(a, n)
  }

  lemma BytesKept(m: Memory, m': Memory, info: int, len: nat, n: int)
    requires |m'| == |m| && Spared(info, len, n)
    requires forall f, i :: 0 <= f < |m| && 0 <= i < 512 && !Overwritten(f, i, n) ==> m'[f][i] == m[f][i]
    ensures BytesAt(m', info, len) == BytesAt(m, info, len)
  {
    var b, b' := BytesAt(m, info, len), BytesAt(m', info, len);
    forall k: nat | k < len ensures b'[k] == b[k] {
      assert SparedAt(info + k, n);
      if 0 <= info + k { WordIndex(info + k); }
    }
    hide SparedAt, Weight;
  }

  lemma WordIndex(a: int)
    requires 0 <= a
    ensures 0 <= a / 4096 && 0 <= a % 4096 / 8 < 512
  {
  }

  /** MMU_init_pf.  The ring gets exactly the whole frames of the lower region but
      frame 0; unpooled stay exactly the whole frames between the end of the last ELF
      section and the end of the upper region.  Section headers are read from memory
      after the ring was written, the memory size after the record. */
  method InitFrames(ram: Ram, info: int, len: nat, ghost mmap: nat, ghost elf: nat, ghost lo: nat, ghost up: nat)
    returns (pf: FrameAllocator, memSize: int)
    requires Bootable(BytesAt(ram.frames, info, len), ram.frames, mmap, elf, lo, up)
    requires Spared(info, len, RegionAt(BytesAt(ram.frames, info, len), mmap, lo).length / 4096)
    modifies ram
    ensures fresh(pf) && pf.ram == ram && pf.Valid()
    ensures var b := BytesAt(old(ram.frames), info, len);
            && Leaves(b, mmap, elf, lo, up, pf.pool)
            && PoolsExactly(b, mmap, elf, lo, up, pf.pool)
            && memSize == MemoryEnd(b, mmap)
  {
    hide *;
    ghost var m := ram.frames;
    var b := BytesAt(ram.frames, info, len);
    BootParts(b, ram.frames, mmap, elf, lo, up);
    var mmapTag := FindTag(b, 6);
    var elfTag := FindTag(b, 9);
    var lower, upper := UsableRegions(b, mmapTag.value, lo, up);
    var lowerLength := RoundDown(lower.length, 4096);
    assert RoundUp(lower.base, 4096) == 0;
    ghost var end := SectionAt(b, elf, Le32(b, elf + 8) - 1);
    RoundedFrames(lower.length, end.addr + end.size, upper.base + upper.length, ram.frames);
    LowerFrames(lower.length);
    PoolLower(ram, lowerLength);
    LowerSpared(m, ram.frames, info, len, lowerLength / 4096);
    var b1 := BytesAt(ram.frames, info, len);
    assert upper.base == SectionAt(b1, elfTag.value, 1).addr;
    var last := SectionAt(b1, elfTag.value, Le32(b1, elfTag.value + 8) - 1);
    var upperBase := RoundUp(last.addr + last.size, 4096);
    var upperLength := RoundDown(upper.length + upper.base, 4096) - upperBase;
    ghost var m1 := ram.frames;
    pf := new FrameAllocator(ram, lowerLength, upperBase, upperLength);
    RecordSpared(m1, ram.frames, info, len, lowerLength / 4096, upperBase, upperLength);
    FirstPool(pf.pool, lower.length, last.addr + last.size, upper.base + upper.length);
    var b2 := BytesAt(ram.frames, info, len);
    memSize := MemoryEnd(b2, mmapTag.value);
    StartPoolIs(b, mmap, elf, lo, up);
    LeavesWhen(b, mmap, elf, lo, up, pf.pool);
    ExactIf(b, mmap, elf, lo, up, pf.pool);
  }

  /** get_sys_mem_size_byte: the end of the last region of the map. */
  function MemoryEnd(b: seq<u8>, tag: nat): int {
    var n := RegionCount(b, tag);
    if n > 0 then RegionAt(b, tag, n - 1).base + RegionAt(b, tag, n - 1).length else 0
  }

  /** The map's regions ascend without overlap. */
  ghost predicate Ascending(b: seq<u8>, tag: nat) {
    forall i: nat, j: nat :: i < j < RegionCount(b, tag) ==>
      RegionAt(b, tag, i).base + RegionAt(b, tag, i).length <= RegionAt(b, tag, j).base
  }

  /** On an ascending map the memory size is the highest end of any region. */
  lemma MemoryEndIsHighest(b: seq<u8>, tag: nat)
    requires Ascending(b, tag) && RegionCount(b, tag) > 0
    ensures forall i: nat :: i < RegionCount(b, tag) ==>
              RegionAt(b, tag, i).base + RegionAt(b, tag, i).length <= MemoryEnd(b, tag)
    ensures exists i: nat :: i < RegionCount(b, tag)
              && RegionAt(b, tag, i).base + RegionAt(b, tag, i).length == MemoryEnd(b, tag)
  {
    hide RegionCount;
    var last: nat := RegionCount(b, tag) - 1;
    forall i: nat | i < RegionCount(b, tag)
      ensures RegionAt(b, tag, i).base + RegionAt(b, tag, i).length <= MemoryEnd(b, tag)
    {
      LengthIsNatural(b, tag, last);
      if i < last {
        assert RegionAt(b, tag, i).base + RegionAt(b, tag, i).length <= RegionAt(b, tag, last).base;
      }
    }
    assert RegionAt(b, tag, last).base + RegionAt(b, tag, last).length == MemoryEnd(b, tag);
  }

  lemma LengthIsNatural(b: seq<u8>, tag: nat, i: nat)
    ensures RegionAt(b, tag, i).length >= 0
  {
  }

  /** Start-up succeeds and leaves the pool `p`. */
  ghost predicate Leaves(b: seq<u8>, mmap: nat, elf: nat, lo: nat, up: nat, p: Pool) {
    && RoundDown(RegionAt(b, mmap, lo).length, 4096) >= 4096 && Le32(b, elf + 8) >= 2
    && (var last, upper := SectionAt(b, elf, Le32(b, elf + 8) - 1), RegionAt(b, mmap, up);
        RoundUp(last.addr + last.size, 4096) <= RoundDown(upper.base + upper.length, 4096))
    && StartPool(b, mmap, elf, lo, up) == p
  }

  lemma LeavesWhen(b: seq<u8>, mmap: nat, elf: nat, lo: nat, up: nat, p: Pool)
    requires RoundDown(RegionAt(b, mmap, lo).length, 4096) >= 4096 && Le32(b, elf + 8) >= 2
    requires var last, upper := SectionAt(b, elf, Le32(b, elf + 8) - 1), RegionAt(b, mmap, up);
             RoundUp(last.addr + last.size, 4096) <= RoundDown(upper.base + upper.length, 4096)
    requires StartPool(b, mmap, elf, lo, up) == p
    ensures Leaves(b, mmap, elf, lo, up, p)
  {
    hide Le32, RegionAt, SectionAt, RoundUp, RoundDown, StartPool;
  }

  /** The ring has the whole frames of the lower region but frame 0, the range the whole
      frames from the last section's end to the upper region's. */
  ghost predicate PoolsExactly(b: seq<u8>, mmap: nat, elf: nat, lo: nat, up: nat, p: Pool) {
    && Le32(b, elf + 8) >= 2
    && (forall f :: f in p.stack <==> 0 < f && 4096 * (f + 1) <= RegionAt(b, mmap, lo).length)
    && var last, upper := SectionAt(b, elf, Le32(b, elf + 8) - 1), RegionAt(b, mmap, up);
       forall f :: Unpooled(p, f) <==>
                     last.addr + last.size <= 4096 * f && 4096 * (f + 1) <= upper.base + upper.length
  }

  lemma ExactIf(b: seq<u8>, mmap: nat, elf: nat, lo: nat, up: nat, p: Pool)
    requires Le32(b, elf + 8) >= 2
    requires forall f :: f in p.stack <==> 0 < f && 4096 * (f + 1) <= RegionAt(b, mmap, lo).length
    requires var last, upper := SectionAt(b, elf, Le32(b, elf + 8) - 1), RegionAt(b, mmap, up);
             forall f :: Unpooled(p, f) <==>
                           last.addr + last.size <= 4096 * f && 4096 * (f + 1) <= upper.base + upper.length
    ensures PoolsExactly(b, mmap, elf, lo, up, p)
  {
    hide Le32, RegionAt, SectionAt, Unpooled;
  }

  lemma LowerFrames(length: int)
    requires 4096 <= length
    ensures RoundDown(length, 4096) / 4096 == length / 4096 && RoundDown(length, 4096) <= length
  {
    var q := length / 4096;
    assert RoundDown(length, 4096) == 4096 * q;
  }

  lemma LowerSpared(m: Memory, m': Memory, info: int, len: nat, n: int)
    requires 1 <= n && LowerPooled(m, m', n - 1, n) && Spared(info, len, n)
    ensures BytesAt(m', info, len) == BytesAt(m, info, len)
    ensures FrameRing.Linked(m', [0] + Run(1, n - 1)) && |m'| == |m|
  {
    forall f, i | 0 <= f < |m| && 0 <= i < 512 && !Overwritten(f, i, n) ensures m'[f][i] == m[f][i] {
    }
    BytesKept(m, m', info, len, n);
    hide BytesAt, Spared;
  }

  lemma RecordSpared(m: Memory, m': Memory, info: int, len: nat, n: int, base: u64, length: u64)
    requires 1 <= n && |m| > 0 && Spared(info, len, n)
    requires m' == Put(Put(Put(m, 0, 2, base), 0, 3, length), 0, 4, length / 4096)
    ensures BytesAt(m', info, len) == BytesAt(m, info, len)
  {
    BytesKept(m, m', info, len, n);
    hide BytesAt, Spared;
  }

  lemma StartPoolIs(b: seq<u8>, mmap: nat, elf: nat, lo: nat, up: nat)
    requires RoundDown(RegionAt(b, mmap, lo).length, 4096) >= 4096 && Le32(b, elf + 8) >= 1
    requires var last, upper := SectionAt(b, elf, Le32(b, elf + 8) - 1), RegionAt(b, mmap, up);
             RoundUp(last.addr + last.size, 4096) <= RoundDown(upper.base + upper.length, 4096)
    ensures var last, upper := SectionAt(b, elf, Le32(b, elf + 8) - 1), RegionAt(b, mmap, up);
            var l, u := RoundDown(RegionAt(b, mmap, lo).length, 4096), RoundUp(last.addr + last.size, 4096);
            StartPool(b, mmap, elf, lo, up) ==
              Pool(Run(1, l / 4096 - 1), u / 4096, (RoundDown(upper.length + upper.base, 4096) - u) / 4096)
  {
    hide RoundUp, RoundDown;
  }

  lemma BootParts(b: seq<u8>, m: Memory, mmap: nat, elf: nat, lo: nat, up: nat)
    requires Bootable(b, m, mmap, elf, lo, up)
    ensures TagsFrom(b, 8) && Find(b, 8, 6) == Some(mmap) && Find(b, 8, 9) == Some(elf)
    ensures TwoUsable(b, mmap, lo, up) && RegionCount(b, mmap) > 0 && Le32(b, elf + 8) >= 2
    ensures var lower, upper, last := RegionAt(b, mmap, lo), RegionAt(b, mmap, up),
            SectionAt(b, elf, Le32(b, elf + 8) - 1);
            && RoundUp(lower.base, 4096) == 0
            && 4096 <= lower.length <= upper.base == SectionAt(b, elf, 1).addr
            && upper.base <= last.addr + last.size
            && RoundUp(last.addr + last.size, 4096) <= RoundDown(upper.base + upper.length, 4096)
            && upper.base + upper.length <= 4096 * |m| && |m| <= 0x40000
    ensures MAX_FRAMES == 0x40000
  {
    hide Le32, Le64, TagsFrom, Find;
  }

  lemma RoundedFrames(lowerLength: int, elfEnd: int, limit: int, m: Memory)
    requires 4096 <= lowerLength <= elfEnd && RoundUp(elfEnd, 4096) <= RoundDown(limit, 4096)
    requires limit <= 4096 * |m| && |m| <= MAX_FRAMES
    ensures var l, u, n := RoundDown(lowerLength, 4096), RoundUp(elfEnd, 4096),
            RoundDown(limit, 4096) - RoundUp(elfEnd, 4096);
            && l % 4096 == 0 && u % 4096 == 0 && n % 4096 == 0 && 0 <= n
            && 4096 <= l <= u && u + n <= 4096 * |m|
            && u + n < 0x1_0000_0000_0000_0000
  {
    RoundBounds(lowerLength);
    RoundBounds(elfEnd);
    RoundBounds(limit);
    var d, u := RoundDown(limit, 4096), RoundUp(elfEnd, 4096);
    DifferenceOfMultiples(d, u);
    assert d == 4096 * (d / 4096);
    hide RoundUp, RoundDown;
  }

  lemma RoundBounds(v: int)
    ensures RoundDown(v, 4096) % 4096 == 0 && v - 4096 < RoundDown(v, 4096) <= v
    ensures RoundUp(v, 4096) % 4096 == 0 && v <= RoundUp(v, 4096) < v + 4096
    ensures v >= 4096 ==> RoundDown(v, 4096) >= 4096
  {
    var q, r := v / 4096, v % 4096;
    assert v == 4096 * q + r;
    assert RoundDown(v, 4096) == 4096 * q;
    assert RoundUp(v, 4096) == if r == 0 then 4096 * q else 4096 * (q + 1);
  }

  lemma DifferenceOfMultiples(a: int, b: int)
    requires a % 4096 == 0 && b % 4096 == 0
    ensures (a - b) % 4096 == 0
  {
    assert a - b == 4096 * (a / 4096 - b / 4096);
  }

  lemma FirstPool(p: Pool, lowerLength: int, elfEnd: int, limit: int)
    requires 4096 <= lowerLength <= elfEnd && RoundUp(elfEnd, 4096) <= RoundDown(limit, 4096)
    requires p == Pool(Run(1, RoundDown(lowerLength, 4096) / 4096 - 1), RoundUp(elfEnd, 4096) / 4096,
                       (RoundDown(limit, 4096) - RoundUp(elfEnd, 4096)) / 4096)
    ensures p.stack == Run(1, |p.stack|)
    ensures forall f :: f in p.stack <==> 0 < f && 4096 * (f + 1) <= lowerLength
    ensures forall f :: Unpooled(p, f) <==> elfEnd <= 4096 * f && 4096 * (f + 1) <= limit
  {
    var n := |p.stack|;
    forall f ensures f in p.stack <==> 0 < f && 4096 * (f + 1) <= lowerLength {
      WholeFrames(0, lowerLength, f);
      if 0 < f <= n { assert p.stack[f - 1] == f; }
    }
    forall f ensures Unpooled(p, f) <==> elfEnd <= 4096 * f && 4096 * (f + 1) <= limit {
      WholeFrames(elfEnd, limit, f);
    }
  }
}
