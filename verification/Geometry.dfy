/** Address arithmetic: pages, words and what multiples of the one are of the other. */
module Geometry {

  lemma PageSplit(a: int, q: int, r: int)
    requires a == 4096 * q + r && 0 <= r < 4096
    ensures a / 4096 == q && a % 4096 == r
  {
  }

  /** A word address is a page and one of 512 words. */
  lemma WordSplit(a: int)
    requires a % 8 == 0
    ensures 0 <= a % 4096 / 8 < 512 && a == 4096 * (a / 4096) + 8 * (a % 4096 / 8)
  {
    var k := a / 8;
    var h, l := k / 512, k % 512;
    assert k == 512 * h + l && a == 8 * k;
    PageSplit(a, h, 8 * l);
  }

  /** A frame's address. */
  lemma FrameAddress(f: int)
    ensures 4096 * f / 4096 == f && 4096 * f % 4096 == 0 && 4096 * f % 8 == 0
    ensures (4096 * f + 8) / 4096 == f
  {
    PageSplit(4096 * f, f, 0);
    PageSplit(4096 * f + 8, f, 8);
  }

  /** A 32-byte boundary is one for headers and words, and a header stays in its page. */
  lemma LineAligned(a: int)
    requires a % 32 == 0
    ensures a % 8 == 0 && (a + 8) % 8 == 0 && (a + 16) % 16 == 0 && (a + 8) / 4096 == a / 4096
  {
    var k := a / 32;
    var h, l := k / 128, k % 128;
    assert a == 32 * k && k == 128 * h + l;
    Multiples32(k);
    PageSplit(a, h, 32 * l);
    PageSplit(a + 8, h, 32 * l + 8);
  }

  lemma Multiples32(k: int)
    ensures 32 * k % 8 == 0 && (32 * k + 8) % 8 == 0 && (32 * k + 16) % 16 == 0 && 32 * k % 32 == 0
  {
    Remainder(8, 4 * k);
    Remainder(8, 4 * k + 1);
    Remainder(16, 2 * k + 1);
    Remainder(32, k);
  }

  lemma Multiples4096(k: int)
    ensures 4096 * k % 32 == 0 && 4096 * k % 8 == 0
  {
    Remainder(32, 128 * k);
    Remainder(8, 512 * k);
  }

  lemma Remainder(m: int, k: int)
    requires m == 8 || m == 16 || m == 32
    ensures m * k % m == 0
  {
    if m == 8 { assert 8 * k % 8 == 0; } else if m == 16 { assert 16 * k % 16 == 0; } else { assert 32 * k % 32 == 0; }
  }
}
