/** Machine words and physical memory.

    RAM is a sequence of 4 KiB frames of 512 words.  A byte address is a number;
    word `i` of frame `f` lives at byte address 4096 * f + 8 * i.  Everything the
    kernel stores - ring links, page-table entries, heap headers - is a word in
    this one memory, so the layers above can really overwrite each other. */
module PhysicalMemory {
  import opened MachineWords

  // The boot code maps only the first GiB one to one.
  const MAX_FRAMES := 0x40000

  type Frame = fr: seq<u64> | |fr| == 512 witness seq(512, _ => 0)
  type Memory = seq<Frame>

  const ZERO_FRAME: Frame := seq(512, _ => 0)

  /** Byte address of word `i` of frame `f`. */
  function Addr(f: nat, i: nat): (a: nat)
    requires i < 512
    ensures a / 4096 == f && a % 4096 == 8 * i && a % 4096 / 8 == i && a % 8 == 0
  {
    4096 * f + 8 * i
  }

  /** Memory with word `i` of frame `f` replaced. */
  function Put(m: Memory, f: int, i: int, v: u64): (r: Memory)
    requires 0 <= f < |m| && 0 <= i < 512
    ensures |r| == |m| && r[f] == m[f][i := v]
    ensures forall g :: 0 <= g < |m| && g != f ==> r[g] == m[g]
  {
    m[f := m[f][i := v]]
  }

  lemma PutTwice(m: Memory, f: int, i: int, v: u64, w: u64)
    requires 0 <= f < |m| && 0 <= i < 512
    ensures Put(Put(m, f, i, v), f, i, w) == Put(m, f, i, w)
  {
    assert m[f][i := v][i := w] == m[f][i := w];
  }

  predicate InRam(m: Memory, a: int) {
    0 <= a && a % 8 == 0 && a / 4096 < |m|
  }

  /** Address of a frame. */
  predicate IsFrame(m: Memory, p: int) {
    0 <= p && p % 4096 == 0 && p / 4096 < |m|
  }

  /** The RAM chips: one shared store for every layer. */
  class Ram {
    var frames: Memory

    constructor (initial: Memory)
      ensures frames == initial
    {
      frames := initial;
    }

    method Load(a: int) returns (v: u64)
      requires InRam(frames, a)
      ensures v == frames[a / 4096][a % 4096 / 8]
    {
      v := frames[a / 4096][a % 4096 / 8];
    }

    method Store(a: int, v: u64)
      requires InRam(frames, a)
      modifies this
      ensures frames == Put(old(frames), a / 4096, a % 4096 / 8, v)
    {
      frames := Put(frames, a / 4096, a % 4096 / 8, v);
    }

    /** Reads word `i` of the frame at address `p`. */
    method Get(p: int, i: int) returns (v: u64)
      requires IsFrame(frames, p) && 0 <= i < 512
      ensures v == frames[p / 4096][i]
    {
      v := Load(Addr(p / 4096, i));
    }

    /** Writes word `i` of the frame at address `p`. */
    method Set(p: int, i: int, v: u64)
      requires IsFrame(frames, p) && 0 <= i < 512
      modifies this
      ensures frames == Put(old(frames), p / 4096, i, v)
    {
      Store(Addr(p / 4096, i), v);
    }

    /** Clears a frame, word by word. */
    method ZeroFrame(p: int)
      requires IsFrame(frames, p)
      modifies this
      ensures frames == old(frames)[p / 4096 := ZERO_FRAME]
    {
      var f := p / 4096;
      ghost var before := frames;
      var i := 0;
      while i < 512
        invariant 0 <= i <= 512
        invariant |frames| == |before|
        invariant forall g :: 0 <= g < |before| && g != f ==> frames[g] == before[g]
        invariant forall j :: 0 <= j < i ==> frames[f][j] == 0
      {
        Set(p, i, 0);
        i := i + 1;
      }
      assert frames[f] == ZERO_FRAME;
    }
  }
}
