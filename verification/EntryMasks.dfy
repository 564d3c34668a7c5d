/** The mask operations of vp_alloc.c on 64-bit words, and the functions on numbers by
    which the model stands for them. */
module EntryMasks {
  import opened MachineWords
  import opened EntryBits

  // ---- Words bit by bit --------------------------------------------------------

  function Half(e: bv64): bv64 { e >> 1 }
  predicate Odd(e: bv64) { e & 1 == 1 }

  /** Binary value of the low `n` bits. */
  function Bits(e: bv64, n: nat): nat
    decreases n
  {
    if n == 0 then 0 else (if Odd(e) then 1 else 0) + 2 * Bits(Half(e), n - 1)
  }

  /** The word shifted down by `k` bits. */
  function Down(e: bv64, k: nat): bv64
    decreases k
  {
    if k == 0 then e else Down(Half(e), k - 1)
  }

  /** y times 2 to the power k */
  function Scale(k: nat, y: int): int {
    if k == 0 then y else 2 * Scale(k - 1, y)
  }

  /** The words have the same bits where `m` has ones. */
  predicate Agree(e: bv64, f: bv64, m: bv64) { (e ^ f) & m == 0 }

  /** The low `k` bits of `m` are ones. */
  predicate Ones(m: bv64, k: nat)
    decreases k
  {
    k == 0 || (Odd(m) && Ones(Half(m), k - 1))
  }

  lemma {:induction false} BitsBound(e: bv64, n: nat)
    ensures Bits(e, n) < Scale(n, 1)
    decreases n
  {
    hide Half, Odd;
    if n > 0 { BitsBound(Half(e), n - 1); }
  }

  lemma {:induction false} Split(e: bv64, n: nat, k: nat)
    requires k <= n
    ensures Bits(e, n) == Bits(e, k) + Scale(k, Bits(Down(e, k), n - k))
    decreases k
  {
    hide Half, Odd;
    if k > 0 {
      Split(Half(e), n - 1, k - 1);
    }
  }

  lemma {:induction false} ZeroBits(n: nat)
    ensures Bits(0, n) == 0
    decreases n
  {
    if n > 0 {
      assert Half(0) == 0 && !Odd(0);
      hide Half, Odd;
      ZeroBits(n - 1);
    }
  }

  lemma HalfAgrees(e: bv64, f: bv64, m: bv64)
    requires Odd(m) && Agree(e, f, m)
    ensures Agree(Half(e), Half(f), Half(m)) && (Odd(e) <==> Odd(f))
  {
  }

  lemma {:induction false} SameLow(e: bv64, f: bv64, m: bv64, k: nat)
    requires Ones(m, k) && Agree(e, f, m)
    ensures Bits(e, k) == Bits(f, k)
    decreases k
  {
    hide Half, Odd, Agree;
    if k > 0 {
      HalfAgrees(e, f, m);
      SameLow(Half(e), Half(f), Half(m), k - 1);
    }
  }

  lemma {:induction false} DownAdd(e: bv64, j: nat, k: nat)
    ensures Down(e, j + k) == Down(Down(e, j), k)
    decreases j
  {
    hide Half, Odd;
    if j > 0 { DownAdd(Half(e), j - 1, k); }
  }

  function Third(e: bv64): bv64 { e >> 3 }
  function Ninth(e: bv64): bv64 { e >> 9 }

  lemma Half3(e: bv64)
    ensures Half(Half(Half(e))) == Third(e)
  {
  }

  lemma Down3(e: bv64)
    ensures Down(e, 3) == Third(e)
  {
    Half3(e);
    hide Half, Third;
    assert Down(e, 3) == Down(Half(e), 2) == Down(Half(Half(e)), 1) == Down(Half(Half(Half(e))), 0);
  }

  lemma Thirds(e: bv64)
    ensures Third(Third(Third(e))) == Ninth(e)
  {
  }

  lemma Shifts(e: bv64)
    ensures Third(Ninth(e)) == e >> 12
    ensures Ninth(Third(Ninth(e))) == e >> 21
    ensures Ninth(Ninth(Third(Ninth(e)))) == e >> 30
    ensures Ninth(Ninth(Ninth(Third(Ninth(e))))) == e >> 39
  {
  }

  lemma Down9(e: bv64)
    ensures Down(e, 9) == Ninth(e)
  {
    Thirds(e);
    hide *;
    Down3(e);
    Down3(Third(e));
    Down3(Third(Third(e)));
    DownAdd(e, 3, 3);
    DownAdd(e, 6, 3);
  }

  lemma DownFar(e: bv64)
    ensures Down(e, 12) == Third(Ninth(e))
    ensures Down(e, 21) == Ninth(Third(Ninth(e)))
    ensures Down(e, 30) == Ninth(Ninth(Third(Ninth(e))))
    ensures Down(e, 39) == Ninth(Ninth(Ninth(Third(Ninth(e)))))
  {
    hide *;
    Down9(e);
    Down3(Ninth(e));
    DownAdd(e, 9, 3);
    DownAdd(e, 12, 9);
    Down9(Third(Ninth(e)));
    DownAdd(e, 21, 9);
    Down9(Ninth(Third(Ninth(e))));
    DownAdd(e, 30, 9);
    Down9(Ninth(Ninth(Third(Ninth(e)))));
  }

  lemma Ones9()
    ensures Ones(0x1FF, 9) && Ones(0xFFF, 12)
  {
    MaskHalves();
    hide Half, Odd;
    assert Ones(1, 1) && Ones(3, 2) && Ones(7, 3) && Ones(0xF, 4) && Ones(0x1F, 5) && Ones(0x3F, 6);
    assert Ones(0x7F, 7) && Ones(0xFF, 8) && Ones(0x1FF, 9) && Ones(0x3FF, 10) && Ones(0x7FF, 11);
  }

  lemma MaskHalves()
    ensures Half(0xFFF) == 0x7FF && Half(0x7FF) == 0x3FF && Half(0x3FF) == 0x1FF && Half(0x1FF) == 0xFF
    ensures Half(0xFF) == 0x7F && Half(0x7F) == 0x3F && Half(0x3F) == 0x1F && Half(0x1F) == 0xF
    ensures Half(0xF) == 7 && Half(7) == 3 && Half(3) == 1
    ensures Odd(0xFFF) && Odd(0x7FF) && Odd(0x3FF) && Odd(0x1FF) && Odd(0xFF) && Odd(0x7F) && Odd(0x3F) && Odd(0x1F)
    ensures Odd(0xF) && Odd(7) && Odd(3) && Odd(1)
  {
  }

  // ---- Powers of two -----------------------------------------------------------

  lemma {:induction false} ScaleAdd(j: nat, k: nat, y: int)
    ensures Scale(j + k, y) == Scale(j, Scale(k, y))
    decreases j
  {
    if j > 0 { ScaleAdd(j - 1, k, y); }
  }

  lemma Scale3(y: int)
    ensures Scale(1, y) == 2 * y && Scale(2, y) == 4 * y && Scale(3, y) == 8 * y
  {
    assert Scale(1, y) == 2 * Scale(0, y);
    assert Scale(2, y) == 2 * Scale(1, y);
    assert Scale(3, y) == 2 * Scale(2, y);
  }

  lemma Scale9(y: int)
    ensures Scale(9, y) == 512 * y
  {
    hide Scale;
    Scale3(y);
    Scale3(8 * y);
    Scale3(64 * y);
    ScaleAdd(3, 3, y);
    ScaleAdd(3, 6, y);
  }

  lemma Scales(y: int)
    ensures Scale(12, y) == 0x1000 * y && Scale(21, y) == 0x20_0000 * y
    ensures Scale(30, y) == 0x4000_0000 * y && Scale(39, y) == 0x80_0000_0000 * y
  {
    hide Scale;
    Scale9(y);
    Scale3(512 * y);
    ScaleAdd(3, 9, y);
    Scale9(0x1000 * y);
    ScaleAdd(9, 12, y);
    Scale9(0x20_0000 * y);
    ScaleAdd(9, 21, y);
    Scale9(0x4000_0000 * y);
    ScaleAdd(9, 30, y);
  }

  // ---- The masks ---------------------------------------------------------------

  /** e | mask */
  function With(e: bv64, mask: bv64): bv64 { e | mask }
  /** e & ~mask */
  function Without(e: bv64, mask: bv64): bv64 { e & !mask }
  /** e & mask, as a condition */
  predicate Has(e: bv64, mask: bv64) { e & mask != 0 }
  function Tenth(e: bv64): bv64 { e >> 10 }
  function Page(e: bv64): bv64 { e >> 12 }

  /** A word's number: what memory holds in the model. */
  function Value(e: bv64): u64 {
    ValueFits(e);
    Bits(e, 64)
  }

  lemma ValueFits(e: bv64)
    ensures Bits(e, 64) < 0x1_0000_0000_0000_0000
  {
    hide *;
    BitsBound(e, 64);
    Scale3(1);
    ScaleAdd(1, 3, 1);
    Scale3(8);
    Scales(16);
    ScaleAdd(21, 4, 1);
    Scales(0x200_0000);
    ScaleAdd(39, 25, 1);
  }

  lemma ValueIs(e: bv64)
    ensures Value(e) == Bits(e, 64)
  {
    hide Bits;
  }

  lemma BitsStep(e: bv64, n: nat)
    requires n > 0
    ensures Bits(e, n) == (if Odd(e) then 1 else 0) + 2 * Bits(Half(e), n - 1)
  {
    hide Half, Odd;
  }

  /** The number of a word split below bit 2 and below bit 9. */
  lemma LowSplit(e: bv64)
    ensures Value(e) == (if Odd(e) then 1 else 0) + (if Odd(Half(e)) then 2 else 0) + 4 * Bits(Half(Half(e)), 62)
  {
    hide *;
    ValueIs(e);
    BitsStep(e, 64);
    BitsStep(Half(e), 63);
  }

  lemma DemandSplit(e: bv64)
    ensures Bits(e, 9) < 512
    ensures Value(e) == Bits(e, 9) + 512 * ((if Odd(Ninth(e)) then 1 else 0) + 2 * Bits(Half(Ninth(e)), 54))
  {
    hide *;
    ValueIs(e);
    Split(e, 64, 9);
    Down9(e);
    BitsBound(e, 9);
    Scale9(1);
    Scale9(Bits(Ninth(e), 55));
    BitsStep(Ninth(e), 55);
  }

  /** `entry | (WRITEABLE_MASK | PRESENT_MASK)`, `entry & ~(...)` and `entry & PRESENT_MASK`
      on words are the model's operations on numbers. */
  lemma PresentMask(e: bv64)
    ensures Value(With(e, 3)) == SetPresent(Value(e))
    ensures Value(Without(e, 3)) == ClearPresent(Value(e))
    ensures Has(e, 1) <==> IsPresent(Value(e))
  {
    hide *;
    TwoBitsTest(e);
    TwoBitsSet(e);
    TwoBitsClear(e);
    PresentOn(e, With(e, 3), Without(e, 3));
  }

  lemma PresentOn(e: bv64, s: bv64, c: bv64)
    requires Half(Half(s)) == Half(Half(e)) == Half(Half(c))
    requires Odd(s) && Odd(Half(s)) && !Odd(c) && !Odd(Half(c))
    ensures Value(s) == SetPresent(Value(e)) && Value(c) == ClearPresent(Value(e))
    ensures Odd(e) <==> IsPresent(Value(e))
  {
    hide Half, Odd, Value, Bits;
    LowSplit(e);
    LowSplit(s);
    LowSplit(c);
    LowBits(if Odd(e) then 1 else 0, if Odd(Half(e)) then 1 else 0, Bits(Half(Half(e)), 62));
  }

  lemma LowBits(low: int, next: int, high: int)
    requires 0 <= low < 2 && 0 <= next < 2
    ensures var v := low + 2 * next + 4 * high; v % 4 == low + 2 * next && v % 2 == low
  {
    var v := low + 2 * next + 4 * high;
    assert v / 4 == high;
    assert v == 2 * (next + 2 * high) + low;
    assert v / 2 == next + 2 * high;
  }

  lemma TwoBitsTest(e: bv64)
    ensures Has(e, 1) <==> Odd(e)
  {
  }

  lemma TwoBitsSet(e: bv64)
    ensures Half(Half(With(e, 3))) == Half(Half(e)) && Odd(With(e, 3)) && Odd(Half(With(e, 3)))
  {
  }

  lemma TwoBitsClear(e: bv64)
    ensures Half(Half(Without(e, 3))) == Half(Half(e)) && !Odd(Without(e, 3)) && !Odd(Half(Without(e, 3)))
  {
  }

  /** `entry & DEMAND_MASK`, `entry | DEMAND_MASK` and `entry & ~DEMAND_MASK`. */
  lemma DemandMask(e: bv64)
    ensures Has(e, 0x200) <==> IsDemand(Value(e))
    ensures Value(With(e, 0x200)) == SetDemand(Value(e))
    ensures Value(Without(e, 0x200)) == ClearDemand(Value(e))
  {
    hide *;
    Bit9Test(e);
    Bit9Set(e);
    Bit9Clear(e);
    Ones9();
    DemandOn(e, With(e, 0x200), Without(e, 0x200), 0x1FF);
  }

  lemma DemandOn(e: bv64, s: bv64, c: bv64, m: bv64)
    requires Ones(m, 9) && Agree(e, s, m) && Agree(e, c, m)
    requires Half(Ninth(s)) == Half(Ninth(e)) == Half(Ninth(c)) && Odd(Ninth(s)) && !Odd(Ninth(c))
    ensures Odd(Ninth(e)) <==> IsDemand(Value(e))
    ensures Value(s) == SetDemand(Value(e)) && Value(c) == ClearDemand(Value(e))
  {
    hide Half, Odd, Agree, Value, Bits, Ninth, Ones;
    SameLow(e, s, m, 9);
    SameLow(e, c, m, 9);
    DemandSplit(e);
    DemandSplit(s);
    DemandSplit(c);
    DemandBit(Bits(e, 9), if Odd(Ninth(e)) then 1 else 0, Bits(Half(Ninth(e)), 54));
  }

  lemma DemandBit(low: int, bit: int, high: int)
    requires 0 <= low < 512 && 0 <= bit < 2
    ensures (low + 512 * (bit + 2 * high)) / 512 % 2 == bit
  {
    assert (low + 512 * (bit + 2 * high)) / 512 == bit + 2 * high;
  }

  lemma Bit9Test(e: bv64)
    ensures Has(e, 0x200) <==> Odd(Ninth(e))
  {
  }

  lemma Bit9Set(e: bv64)
    ensures Agree(e, With(e, 0x200), 0x1FF)
    ensures Half(Ninth(With(e, 0x200))) == Half(Ninth(e)) && Odd(Ninth(With(e, 0x200)))
  {
    hide *;
    SetKeepsLow(e);
    SetKeepsHigh(e);
    SetHasBit(e);
  }

  lemma SetKeepsLow(e: bv64)
    ensures Agree(e, With(e, 0x200), 0x1FF)
  {
  }

  lemma SetKeepsHigh(e: bv64)
    ensures Half(Ninth(With(e, 0x200))) == Half(Ninth(e))
  {
    hide *;
    SetKeepsTenth(e);
    TenthIs(e);
    TenthIs(With(e, 0x200));
  }

  lemma SetKeepsTenth(e: bv64)
    ensures Tenth(With(e, 0x200)) == Tenth(e)
  {
  }

  lemma TenthIs(e: bv64)
    ensures Half(Ninth(e)) == Tenth(e)
  {
  }

  lemma SetHasBit(e: bv64)
    ensures Odd(Ninth(With(e, 0x200)))
  {
  }

  lemma Bit9Clear(e: bv64)
    ensures Agree(e, Without(e, 0x200), 0x1FF)
    ensures Half(Ninth(Without(e, 0x200))) == Half(Ninth(e)) && !Odd(Ninth(Without(e, 0x200)))
  {
    hide *;
    ClearKeepsLow(e);
    ClearKeepsHigh(e);
    ClearHasNoBit(e);
  }

  lemma ClearKeepsLow(e: bv64)
    ensures Agree(e, Without(e, 0x200), 0x1FF)
  {
  }

  lemma ClearKeepsHigh(e: bv64)
    ensures Half(Ninth(Without(e, 0x200))) == Half(Ninth(e))
  {
    hide *;
    ClearKeepsTenth(e);
    TenthIs(e);
    TenthIs(Without(e, 0x200));
  }

  lemma ClearKeepsTenth(e: bv64)
    ensures Tenth(Without(e, 0x200)) == Tenth(e)
  {
  }

  lemma ClearHasNoBit(e: bv64)
    ensures !Odd(Ninth(Without(e, 0x200)))
  {
  }

  /** `entry & ~0xFFF` */
  lemma AddressMask(e: bv64)
    ensures Value(Without(e, 0xFFF)) == Base(Value(e))
  {
    hide *;
    Low12(e);
    High12(e);
    Ones9();
    AddressOn(e, Without(e, 0xFFF), 0xFFF);
  }

  lemma AddressOn(e: bv64, b: bv64, m: bv64)
    requires Ones(m, 12) && Agree(b, 0, m) && Third(Ninth(b)) == Third(Ninth(e))
    ensures Value(b) == Base(Value(e))
  {
    hide Agree, Bits, Ninth, Third, Ones, Value;
    SameLow(b, 0, m, 12);
    ZeroBits(12);
    PageParts(e);
    PageParts(b);
  }

  lemma Low12(e: bv64)
    ensures Agree(Without(e, 0xFFF), 0, 0xFFF)
  {
  }

  lemma High12(e: bv64)
    ensures Third(Ninth(Without(e, 0xFFF))) == Third(Ninth(e))
  {
    hide *;
    SamePage(e);
    PageIs(e);
    PageIs(Without(e, 0xFFF));
  }

  lemma SamePage(e: bv64)
    ensures Page(Without(e, 0xFFF)) == Page(e)
  {
  }

  lemma PageIs(e: bv64)
    ensures Third(Ninth(e)) == Page(e)
  {
  }

  lemma PageParts(e: bv64)
    ensures Bits(e, 12) < 0x1000 && Value(e) == Bits(e, 12) + 0x1000 * Bits(Third(Ninth(e)), 52)
  {
    hide *;
    ValueIs(e);
    Split(e, 64, 12);
    DownFar(e);
    BitsBound(e, 12);
    Scales(1);
    Scales(Bits(Third(Ninth(e)), 52));
  }

  /** `(virtual_addr >> k) & 0x1FF` for the four levels. */
  lemma IndexMask(e: bv64)
    ensures Value((e >> 12) & 0x1FF) == Value(e) / 0x1000 % 512
    ensures Value((e >> 21) & 0x1FF) == Value(e) / 0x20_0000 % 512
    ensures Value((e >> 30) & 0x1FF) == Value(e) / 0x4000_0000 % 512
    ensures Value((e >> 39) & 0x1FF) == Value(e) / 0x80_0000_0000 % 512
  {
    Shifts(e);
    hide *;
    DownFar(e);
    Scales(1);
    Field(e, e >> 12, 12, 0x1000);
    Field(e, e >> 21, 21, 0x20_0000);
    Field(e, e >> 30, 30, 0x4000_0000);
    Field(e, e >> 39, 39, 0x80_0000_0000);
  }

  lemma Field(e: bv64, d: bv64, k: nat, c: int)
    requires || (k == 12 && c == 0x1000) || (k == 21 && c == 0x20_0000)
             || (k == 30 && c == 0x4000_0000) || (k == 39 && c == 0x80_0000_0000)
    requires Down(e, k) == d
    ensures Value(d & 0x1FF) == Value(e) / c % 512
  {
    hide *;
    NineBits(d);
    Ones9();
    NineOn(d, d & 0x1FF, 0x1FF);
    ValueIs(e);
    Split(e, 64, k);
    BitsBound(e, k);
    Scales(1);
    Scales(Bits(d, 64 - k));
    Quotient(Value(e), Bits(e, k), Bits(d, 64 - k), c);
    Split(d, 64 - k, 9);
    BitsBound(d, 9);
    Scale9(1);
    var g := Bits(Down(d, 9), 64 - k - 9);
    Scale9(g);
    Remainder(Bits(d, 64 - k), Bits(d, 9), g);
  }

  lemma NineOn(d: bv64, low: bv64, m: bv64)
    requires Ones(m, 9) && Agree(low, d, m) && Ninth(low) == 0
    ensures Value(low) == Bits(d, 9)
  {
    hide *;
    ValueIs(low);
    SameLow(low, d, m, 9);
    Split(low, 64, 9);
    Down9(low);
    ZeroBits(55);
    Scale9(0);
  }

  lemma Quotient(v: int, r: int, q: int, c: int)
    requires c == 0x1000 || c == 0x20_0000 || c == 0x4000_0000 || c == 0x80_0000_0000
    requires v == r + c * q && 0 <= r < c
    ensures v / c == q
  {
  }

  lemma Remainder(v: int, r: int, q: int)
    requires v == r + 512 * q && 0 <= r < 512
    ensures v % 512 == r
  {
  }

  lemma NineBits(d: bv64)
    ensures Agree(d & 0x1FF, d, 0x1FF) && Ninth(d & 0x1FF) == 0
  {
  }
}
