/** A machine whose lower region is one frame long.  Frame 0 is the allocator's record,
    so start-up pools nothing: the one way to an empty ring. */
module SmallBoot {
  import opened MachineWords
  import opened Geometry
  import opened PhysicalMemory
  import opened FramePool
  import opened BootInformation
  import opened Startup

  /** Start-up leaves the ring empty exactly if the lower region has no second frame. */
  lemma StartsEmpty(b: seq<u8>, m: Memory, mmap: nat, elf: nat, lo: nat, up: nat)
    requires Bootable(b, m, mmap, elf, lo, up)
    ensures RoundDown(RegionAt(b, mmap, lo).length, 4096) >= 4096 && Le32(b, elf + 8) >= 2
    ensures var last, upper := SectionAt(b, elf, Le32(b, elf + 8) - 1), RegionAt(b, mmap, up);
            RoundUp(last.addr + last.size, 4096) <= RoundDown(upper.base + upper.length, 4096)
    ensures StartPool(b, mmap, elf, lo, up).stack == [] <==> RegionAt(b, mmap, lo).length < 8192
  {
    hide *;
    BootParts(b, m, mmap, elf, lo, up);
    RoundBounds(RegionAt(b, mmap, lo).length);
    StartPoolIs(b, mmap, elf, lo, up);
    RunEmpty(RegionAt(b, mmap, lo).length);
  }

  lemma RunEmpty(length: int)
    requires length >= 4096
    ensures RoundDown(length, 4096) / 4096 - 1 >= 0
    ensures Run(1, RoundDown(length, 4096) / 4096 - 1) == [] <==> length < 8192
  {
    var q := length / 4096;
    assert RoundDown(length, 4096) == 4096 * q;
    assert |Run(1, q - 1)| == q - 1;
  }

  /** The first MMU_pf_alloc then fails pop_elem's assert exactly if one frame is
      unpooled; with none it returns NULL. */
  lemma FirstAlloc(b: seq<u8>, m: Memory, mmap: nat, elf: nat, lo: nat, up: nat)
    requires Bootable(b, m, mmap, elf, lo, up) && RegionAt(b, mmap, lo).length < 8192
    requires RoundDown(RegionAt(b, mmap, lo).length, 4096) >= 4096 && Le32(b, elf + 8) >= 2
    requires var last, upper := SectionAt(b, elf, Le32(b, elf + 8) - 1), RegionAt(b, mmap, up);
             RoundUp(last.addr + last.size, 4096) <= RoundDown(upper.base + upper.length, 4096)
    ensures var p := StartPool(b, mmap, elf, lo, up);
            && (Alloc(p) == Halt <==> p.unpooled == 1)
            && (Alloc(p) == Null <==> p.unpooled == 0)
  {
    hide *;
    StartsEmpty(b, m, mmap, elf, lo, up);
    AllocOutcome(StartPool(b, mmap, elf, lo, up));
  }

  // ---- Such boot information ---------------------------------------------------

  /** Byte `i` of boot information with one usable frame at 0 and usable memory from
      1 MiB, of which the one ELF section takes a frame and `n` frames remain. */
  function SmallByte(n: nat, i: int): u8
    requires n < 15
  {
    if i == 0 then 232            // total size
    else if i == 8 then 6         // memory map at 8
    else if i == 12 then 64
    else if i == 16 then 24
    else if i == 33 then 0x10     // 4096 bytes from 0
    else if i == 40 then 1
    else if i == 50 then 0x10     // from 1 MiB
    else if i == 57 then 0x10 * (n + 1)
    else if i == 64 then 1
    else if i == 72 then 9        // ELF symbols at 72
    else if i == 76 then 148
    else if i == 80 then 2
    else if i == 84 then 64
    else if i == 174 then 0x10    // section 1 at 1 MiB
    else if i == 189 then 0x10
    else if i == 228 then 8       // end tag at 224
    else 0
  }

  function SmallInfo(n: nat): (b: seq<u8>)
    requires n < 15
    ensures |b| == 232
  {
    seq(232, i => SmallByte(n, i))
  }

  lemma ByteIs(n: nat, i: int)
    requires n < 15 && 0 <= i < 232
    ensures Byte(SmallInfo(n), i) == SmallByte(n, i)
  {
  }

  lemma WordIs(n: nat, i: int)
    requires n < 15 && 0 <= i && i + 4 <= 232
    ensures Le32(SmallInfo(n), i) == SmallByte(n, i) + 0x100 * SmallByte(n, i + 1) + 0x1_0000 * SmallByte(n, i + 2)
            + 0x100_0000 * SmallByte(n, i + 3)
  {
    ByteIs(n, i);
    ByteIs(n, i + 1);
    ByteIs(n, i + 2);
    ByteIs(n, i + 3);
    hide SmallByte, SmallInfo, Byte;
  }

  lemma TagWords(n: nat)
    requires n < 15
    ensures var b := SmallInfo(n);
            && TagType(b, 8) == 6 && TagSize(b, 8) == 64 && Le32(b, 16) == 24 && Le32(b, 20) == 0
            && TagType(b, 72) == 9 && TagSize(b, 72) == 148 && Le32(b, 80) == 2 && Le32(b, 84) == 64
            && TagType(b, 224) == 0 && TagSize(b, 224) == 8
  {
    hide Le32, SmallInfo;
    WordIs(n, 8);
    WordIs(n, 12);
    WordIs(n, 16);
    WordIs(n, 20);
    WordIs(n, 72);
    WordIs(n, 76);
    WordIs(n, 80);
    WordIs(n, 84);
    WordIs(n, 224);
    WordIs(n, 228);
  }

  lemma MapWords(n: nat)
    requires n < 15
    ensures var b := SmallInfo(n);
            && RegionAt(b, 8, 0) == Region(0, 0x1000, 1)
            && RegionAt(b, 8, 1) == Region(0x10_0000, 0x1000 * (n + 1), 1)
  {
    hide Le32, SmallInfo;
    WordIs(n, 24);
    WordIs(n, 28);
    WordIs(n, 32);
    WordIs(n, 36);
    WordIs(n, 40);
    WordIs(n, 48);
    WordIs(n, 52);
    WordIs(n, 56);
    WordIs(n, 60);
    WordIs(n, 64);
  }

  lemma SectionWords(n: nat)
    requires n < 15
    ensures SectionAt(SmallInfo(n), 72, 1) == Section(0x10_0000, 0x1000)
  {
    hide Le32, SmallInfo;
    WordIs(n, 172);
    WordIs(n, 176);
    WordIs(n, 188);
    WordIs(n, 192);
  }

  lemma TagList(n: nat)
    requires n < 15
    ensures TagsFrom(SmallInfo(n), 8)
    ensures Find(SmallInfo(n), 8, 6) == Some(8) && Find(SmallInfo(n), 8, 9) == Some(72)
  {
    var b := SmallInfo(n);
    TagWords(n);
    hide Le32, SmallInfo, TagType, TagSize;
    assert RoundUp(64, 8) == 64 && RoundUp(148, 8) == 152;
    assert TagsFrom(b, 224);
    assert TagsFrom(b, 72);
    assert TagsFrom(b, 8);
    assert Find(b, 72, 9) == Some(72);
  }

  lemma SmallMap(n: nat)
    requires n < 15
    ensures TwoUsable(SmallInfo(n), 8, 0, 1) && MmapOk(SmallInfo(n), 8) && ElfOk(SmallInfo(n), 72)
  {
    hide *;
    TagWords(n);
    MapWords(n);
    UsablePair(SmallInfo(n), 0x1000 * (n + 1));
    TagsOk(SmallInfo(n));
  }

  lemma UsablePair(b: seq<u8>, length: int)
    requires TagSize(b, 8) == 64
    requires RegionAt(b, 8, 0) == Region(0, 0x1000, 1) && RegionAt(b, 8, 1) == Region(0x10_0000, length, 1)
    ensures TwoUsable(b, 8, 0, 1)
  {
    hide Le32, Le64, RegionAt;
    assert RegionCount(b, 8) == 2;
    forall i: nat | i < 2
      ensures RegionAt(b, 8, i).kind == 1 && (RegionAt(b, 8, i).base == 0 <==> i == 0)
    {
      assert i == 0 || i == 1;
    }
  }

  lemma TagsOk(b: seq<u8>)
    requires TagType(b, 8) == 6 && TagSize(b, 8) == 64 && Le32(b, 16) == 24 && Le32(b, 20) == 0
    requires TagType(b, 72) == 9 && TagSize(b, 72) == 148 && Le32(b, 80) == 2 && Le32(b, 84) == 64
    ensures MmapOk(b, 8) && ElfOk(b, 72)
  {
    hide Le32, TagType, TagSize;
  }

  lemma SmallRounding(n: nat)
    requires n < 15
    ensures RoundUp(0x10_1000, 4096) == 0x10_1000 && RoundDown(0x1000, 4096) == 0x1000
    ensures RoundDown(0x10_0000 + 0x1000 * (n + 1), 4096) == 0x10_1000 + 0x1000 * n
    ensures RoundDown(0x1000 * (n + 1) + 0x10_0000, 4096) == 0x10_1000 + 0x1000 * n
  {
    hide *;
    RoundsToItself(1);
    RoundsToItself(0x101);
    RoundsToItself(0x101 + n);
    assert 0x10_0000 + 0x1000 * (n + 1) == 4096 * (0x101 + n) == 0x1000 * (n + 1) + 0x10_0000;
  }

  lemma RoundsToItself(k: int)
    ensures RoundUp(4096 * k, 4096) == 4096 * k == RoundDown(4096 * k, 4096)
  {
    PageSplit(4096 * k, k, 0);
  }

  /** It passes every assert of MMU_init_pf on RAM that holds it. */
  lemma SmallBoots(n: nat, m: Memory)
    requires n < 15 && 0x101 + n <= |m| <= 0x40000
    ensures Bootable(SmallInfo(n), m, 8, 72, 0, 1)
  {
    hide *;
    TagWords(n);
    MapWords(n);
    SectionWords(n);
    TagList(n);
    SmallMap(n);
    SmallRounding(n);
    BootableIf(SmallInfo(n), m, 0x1000 * (n + 1));
  }

  lemma BootableIf(b: seq<u8>, m: Memory, length: int)
    requires TagsFrom(b, 8) && Find(b, 8, 6) == Some(8) && Find(b, 8, 9) == Some(72)
    requires TwoUsable(b, 8, 0, 1) && MmapOk(b, 8) && ElfOk(b, 72) && Le32(b, 80) == 2
    requires RegionAt(b, 8, 0) == Region(0, 0x1000, 1) && RegionAt(b, 8, 1) == Region(0x10_0000, length, 1)
    requires SectionAt(b, 72, 1) == Section(0x10_0000, 0x1000)
    requires RoundUp(0x10_1000, 4096) <= RoundDown(0x10_0000 + length, 4096)
    requires 0x10_0000 + length <= 4096 * |m| && |m| <= 0x40000
    ensures Bootable(b, m, 8, 72, 0, 1)
  {
    hide Le32, RegionAt, SectionAt, Find, TagsFrom, MmapOk, ElfOk, TwoUsable, RoundUp, RoundDown;
  }

  /** It leaves an empty ring and `n` unpooled frames: with `n` = 1 the very first
      allocation fails pop_elem's assert. */
  lemma SmallPool(n: nat)
    requires n < 15
    ensures Leaves(SmallInfo(n), 8, 72, 0, 1, Pool([], 0x101, n))
    ensures Alloc(Pool([], 0x101, n)) == Halt <==> n == 1
  {
    hide *;
    TagWords(n);
    MapWords(n);
    SectionWords(n);
    SmallRounding(n);
    AllocOutcome(Pool([], 0x101, n));
    LeavesIf(SmallInfo(n), n);
  }

  lemma LeavesIf(b: seq<u8>, n: nat)
    requires Le32(b, 80) == 2
    requires RegionAt(b, 8, 0) == Region(0, 0x1000, 1) && RegionAt(b, 8, 1) == Region(0x10_0000, 0x1000 * (n + 1), 1)
    requires SectionAt(b, 72, 1) == Section(0x10_0000, 0x1000)
    requires RoundUp(0x10_1000, 4096) == 0x10_1000 && RoundDown(0x1000, 4096) == 0x1000
    requires RoundDown(0x10_0000 + 0x1000 * (n + 1), 4096) == 0x10_1000 + 0x1000 * n
    ensures Leaves(b, 8, 72, 0, 1, Pool([], 0x101, n))
  {
    hide Le32, RegionAt, SectionAt, RoundUp, RoundDown;
    assert Run(1, 0) == [];
  }

  /** The reported memory size is the end of the upper region. */
  lemma SmallSize(n: nat)
    requires n < 15
    ensures Ascending(SmallInfo(n), 8) && MemoryEnd(SmallInfo(n), 8) == 0x10_0000 + 0x1000 * (n + 1)
  {
    hide Le32, Le64, SmallInfo, RegionAt;
    TagWords(n);
    MapWords(n);
    assert RegionCount(SmallInfo(n), 8) == 2;
  }

  /** The smallest such machine on which the kernel starts: thirteen unpooled frames,
      one of which stays in the ring. */
  lemma SmallStarts(n: nat)
    requires n < 15
    ensures EnoughFrames(SmallInfo(n), 8, 72, 0, 1) <==> n >= 13
  {
    hide *;
    TagWords(n);
    MapWords(n);
    SectionWords(n);
    SmallRounding(n);
    EnoughIf(SmallInfo(n), n);
  }

  lemma EnoughIf(b: seq<u8>, n: nat)
    requires Le32(b, 80) == 2
    requires RegionAt(b, 8, 0) == Region(0, 0x1000, 1) && RegionAt(b, 8, 1) == Region(0x10_0000, 0x1000 * (n + 1), 1)
    requires SectionAt(b, 72, 1) == Section(0x10_0000, 0x1000)
    requires RoundUp(0x10_1000, 4096) == 0x10_1000 && RoundDown(0x1000, 4096) == 0x1000
    requires RoundDown(0x10_0000 + 0x1000 * (n + 1), 4096) == 0x10_1000 + 0x1000 * n
    ensures EnoughFrames(b, 8, 72, 0, 1) <==> n >= 13
  {
    hide Le32, RegionAt, SectionAt, RoundUp, RoundDown;
  }

  // ---- In memory ---------------------------------------------------------------

  /** Eight bytes, low byte first. */
  function Packed(b: seq<u8>, k: int): u64 {
    Byte(b, 8 * k) + 0x100 * (Byte(b, 8 * k + 1) + 0x100 * (Byte(b, 8 * k + 2) + 0x100 * (Byte(b, 8 * k + 3)
      + 0x100 * (Byte(b, 8 * k + 4) + 0x100 * (Byte(b, 8 * k + 5) + 0x100 * (Byte(b, 8 * k + 6)
      + 0x100 * Byte(b, 8 * k + 7)))))))
  }

  lemma Unpacked(b: seq<u8>, k: int, j: int)
    requires 0 <= j < 8
    ensures Packed(b, k) / Weight(j) % 0x100 == Byte(b, 8 * k + j)
  {
    var w := Packed(b, k);
    var t := Tail(b, k, j);
    TailIs(b, k, j);
    if j < 7 { Horner(t, Tail(b, k, j + 1), Byte(b, 8 * k + j)); }
    hide Byte, Packed, Weight;
  }

  /** The word without its low `j` bytes. */
  function Tail(b: seq<u8>, k: int, j: int): int
    requires 0 <= j < 8
    decreases 8 - j
  {
    if j == 7 then Byte(b, 8 * k + 7) else Byte(b, 8 * k + j) + 0x100 * Tail(b, k, j + 1)
  }

  lemma TailFromStart(b: seq<u8>, k: int)
    ensures Tail(b, k, 0) == Packed(b, k)
  {
    assert Tail(b, k, 6) == Byte(b, 8 * k + 6) + 0x100 * Tail(b, k, 7);
    assert Tail(b, k, 5) == Byte(b, 8 * k + 5) + 0x100 * Tail(b, k, 6);
    assert Tail(b, k, 4) == Byte(b, 8 * k + 4) + 0x100 * Tail(b, k, 5);
    assert Tail(b, k, 3) == Byte(b, 8 * k + 3) + 0x100 * Tail(b, k, 4);
    assert Tail(b, k, 2) == Byte(b, 8 * k + 2) + 0x100 * Tail(b, k, 3);
    assert Tail(b, k, 1) == Byte(b, 8 * k + 1) + 0x100 * Tail(b, k, 2);
    hide Byte;
  }

  lemma {:induction false} TailIs(b: seq<u8>, k: int, j: int)
    requires 0 <= j < 8
    ensures Packed(b, k) / Weight(j) == Tail(b, k, j)
    decreases j
  {
    hide Byte, Packed;
    if j == 0 {
      TailFromStart(b, k);
    } else {
      TailIs(b, k, j - 1);
      NextWeight(Packed(b, k), j - 1);
      Horner(Tail(b, k, j - 1), Tail(b, k, j), Byte(b, 8 * k + j - 1));
    }
  }

  function PackedFrame(b: seq<u8>): Frame {
    seq<u64>(512, i => Packed(b, i))
  }

  function NoContents(): (m: Memory)
    ensures |m| == 0x110
  {
    seq(0x110, _ => ZERO_FRAME)
  }

  /** RAM of 0x110 frames with the bytes of `b` at the start of frame 0x101. */
  function RamWith(b: seq<u8>): Memory {
    NoContents()[0x101 := PackedFrame(b)]
  }

  lemma BytesLie(b: seq<u8>)
    requires |b| <= 4096
    ensures BytesAt(RamWith(b), 0x10_1000, |b|) == b
  {
    var r := BytesAt(RamWith(b), 0x10_1000, |b|);
    forall k: nat | k < |b| ensures r[k] == b[k] {
      ByteLies(b, k);
    }
    hide ByteAt, RamWith;
  }

  lemma ByteLies(b: seq<u8>, k: nat)
    requires k < |b| <= 4096
    ensures ByteAt(RamWith(b), 0x10_1000 + k) == b[k]
  {
    hide Packed, Weight;
    var a, i, j := 0x10_1000 + k, k / 8, k % 8;
    PageSplit(a, 0x101, k);
    ByteParts(k);
    Unpacked(b, i, j);
    assert RamWith(b)[0x101] == PackedFrame(b);
    assert PackedFrame(b)[i] == Packed(b, i);
  }

  lemma ByteParts(k: nat)
    requires k < 4096
    ensures k == 8 * (k / 8) + k % 8 && 0 <= k / 8 < 512 && (0x10_1000 + k) % 8 == k % 8
  {
    var q := k / 8;
    assert 0x10_1000 + k == 8 * (0x2_0200 + q) + k % 8;
  }

  /** So all that start-up asks for can be met: here is RAM on which the kernel boots, up
      to a heap with `n` = 13 or 14, and up to the failing assert with `n` = 1. */
  lemma SmallInMemory(n: nat)
    requires n < 15
    ensures var m, b := RamWith(SmallInfo(n)), SmallInfo(n);
            && BytesAt(m, 0x10_1000, 232) == b && Bootable(b, m, 8, 72, 0, 1)
            && Spared(0x10_1000, 232, RegionAt(b, 8, 0).length / 4096)
  {
    hide *;
    BytesLie(SmallInfo(n));
    SmallLength(n);
    RamSize(SmallInfo(n));
    SmallBoots(n, RamWith(SmallInfo(n)));
    MapWords(n);
    AboveIsSpared(0x10_1000, 232, 1);
  }

  lemma SmallLength(n: nat)
    requires n < 15
    ensures |SmallInfo(n)| == 232
  {
  }

  lemma RamSize(b: seq<u8>)
    ensures |RamWith(b)| == 0x110
  {
  }

  lemma AboveIsSpared(info: int, len: nat, n: int)
    requires 4096 * n <= info
    ensures Spared(info, len, n)
  {
    forall a | info <= a < info + len ensures SparedAt(a, n) {
      assert a / 4096 >= n;
    }
  }
}
