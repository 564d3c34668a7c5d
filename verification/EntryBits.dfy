/** Mask operations of vp_alloc.c on page-table entries, as arithmetic on words. */
module EntryBits {
  import opened MachineWords

  /** entry | (WRITEABLE_MASK | PRESENT_MASK) */
  function SetPresent(entry: u64): u64 {
    entry - entry % 4 + 3
  }

  /** entry & ~(PRESENT_MASK | WRITEABLE_MASK) */
  function ClearPresent(entry: u64): u64 {
    entry - entry % 4
  }

  predicate IsPresent(entry: u64) {
    entry % 2 == 1
  }

  predicate IsDemand(entry: u64) {
    entry / 512 % 2 == 1
  }

  /** entry | DEMAND_MASK */
  function SetDemand(entry: u64): u64
    ensures IsDemand(SetDemand(entry))
  {
    if IsDemand(entry) then entry else entry + 512
  }

  /** entry & ~DEMAND_MASK */
  function ClearDemand(entry: u64): u64
    ensures !IsDemand(ClearDemand(entry))
  {
    if IsDemand(entry) then entry - 512 else entry
  }

  /** entry & ~0xFFF */
  function Base(entry: u64): u64 {
    entry - entry % 4096
  }

  lemma PresentFrame(p: u64)
    requires p % 4096 == 0
    ensures SetPresent(p) == p + 3 && IsPresent(p + 3) && Base(p + 3) == p && ClearPresent(p + 3) == p
  {
    FrameBits(p / 4096);
    assert p == 4096 * (p / 4096);
  }

  lemma FrameBits(k: int)
    ensures 4096 * k % 4 == 0 && (4096 * k + 3) % 4 == 3 && (4096 * k + 3) % 2 == 1 && (4096 * k + 3) % 4096 == 3
  {
  }

  // ---- The processor's marks ---------------------------------------------------

  /** Accessed and dirty: bits 5 and 6, which the processor sets in entries it uses. */
  predicate Marks(x: int) {
    x == 0 || x == 32 || x == 64 || x == 96
  }

  /** A present, writeable entry for frame `f`, marked or not. */
  predicate LeadsTo(e: u64, f: int) {
    Marks(e - (4096 * f + 3))
  }

  /** The identity table's entry for the first GiB, marked or not. */
  predicate FirstGigabyte(e: u64) {
    Marks(e - 0x83)
  }

  /** The entry with its marks replaced. */
  function Remark(e: u64, x: int): u64
    requires Marks(x)
  {
    e / 128 * 128 + e % 32 + x
  }

  lemma RemarkLeads(e: u64, f: int, x: int)
    requires Marks(x)
    ensures LeadsTo(e, f) ==> LeadsTo(Remark(e, x), f)
    ensures FirstGigabyte(e) ==> FirstGigabyte(Remark(e, x))
  {
    if LeadsTo(e, f) { RemarkWord(e, 32 * f, e - (4096 * f + 3), x); }
    if FirstGigabyte(e) { RemarkWord(e, 1, e - 0x83, x); }
  }

  lemma RemarkWord(e: u64, q: int, y: int, x: int)
    requires e == 128 * q + 3 + y && Marks(y) && Marks(x)
    ensures Remark(e, x) == 128 * q + 3 + x
  {
    var j := if y == 0 then 0 else if y == 32 then 1 else if y == 64 then 2 else 3;
    Split(e, 128, q, 3 + y);
    Split(e, 32, 4 * q + j, 3);
  }

  lemma Split(a: int, d: int, q: int, r: int)
    requires d == 2 || d == 4 || d == 32 || d == 128 || d == 512 || d == 4096
    requires a == d * q + r && 0 <= r < d
    ensures a / d == q && a % d == r
  {
    if d == 2 {
      assert a == 2 * q + r;
    } else if d == 4 {
      assert a == 4 * q + r;
    } else if d == 32 {
      assert a == 32 * q + r;
    } else if d == 128 {
      assert a == 128 * q + r;
    } else if d == 512 {
      assert a == 512 * q + r;
    } else {
      assert a == 4096 * q + r;
    }
  }

  /** What the masks make of an entry for frame `f`. */
  lemma LeadsBits(e: u64, f: int)
    requires LeadsTo(e, f)
    ensures IsPresent(e) && Base(e) == 4096 * f && e / 4096 == f && e / 128 % 2 == 0
    ensures Marks(ClearPresent(e) % 4096)
  {
    var x := e - (4096 * f + 3);
    var j := if x == 0 then 0 else if x == 32 then 1 else if x == 64 then 2 else 3;
    Split(e, 4096, f, 3 + x);
    Split(e, 128, 32 * f, 3 + x);
    Split(32 * f, 2, 16 * f, 0);
    Split(e, 2, 2048 * f + 16 * j + 1, 1);
    Split(e, 4, 1024 * f + 8 * j, 3);
    Split(ClearPresent(e), 4096, f, x);
  }

  /** An address with marks at most is neither on demand nor present nor writeable. */
  lemma NoFlags(e: u64)
    requires Marks(e % 4096)
    ensures !IsDemand(e) && e % 4 == 0
  {
    var k, x := e / 4096, e % 4096;
    var j := if x == 0 then 0 else if x == 32 then 1 else if x == 64 then 2 else 3;
    Split(e, 512, 8 * k, x);
    Split(8 * k, 2, 4 * k, 0);
    Split(e, 4, 1024 * k + 8 * j, 0);
  }
}
