/** The page-frame allocator seen from outside: a stack of pooled frames and a
    range of frames not pooled yet.  Frames are named by frame number. */
module FramePool {
  import opened Sequences

  // pf_alloc.c: PAGES_TO_ADD_IF_POOL_EMPTY
  const GROW_BY := 500

  datatype Pool = Pool(stack: seq<int>, base: int, unpooled: nat)

  datatype AllocResult =
    | Null                          // MMU_pf_alloc returns NULL
    | Halt                          // pop_elem's assert stops the machine
    | Taken(frame: int, rest: Pool)

  /** Frames base, base + 1, ..., base + k - 1. */
  function Run(base: int, k: nat): seq<int> {
    seq(k, i => base + i)
  }

  /** Every frame the allocator owns, in the order in which it would pool them. */
  function Frames(p: Pool): seq<int> {
    p.stack + Run(p.base, p.unpooled)
  }

  ghost predicate Unpooled(p: Pool, f: int) {
    p.base <= f < p.base + p.unpooled
  }

  ghost predicate Owns(p: Pool, f: int) {
    f in p.stack || Unpooled(p, f)
  }

  /** No frame is pooled twice, none is both pooled and unpooled, and frame 0,
      which holds the allocator's own record, is neither. */
  ghost predicate WellFormed(p: Pool) {
    && 0 < p.base
    && Distinct(p.stack)
    && forall i :: 0 <= i < |p.stack| ==> 0 < p.stack[i] && !Unpooled(p, p.stack[i])
  }

  function Grow(p: Pool, k: nat): Pool
    requires k <= p.unpooled
  {
    Pool(p.stack + Run(p.base, k), p.base + k, p.unpooled - k)
  }

  function GrowCount(p: Pool): nat {
    if GROW_BY > p.unpooled then p.unpooled else GROW_BY
  }

  function Pop(p: Pool): AllocResult {
    if |p.stack| <= 1 then Halt
    else Taken(p.stack[|p.stack| - 1], p.(stack := p.stack[..|p.stack| - 1]))
  }

  /** MMU_pf_alloc.  A ring of one frame counts as empty. */
  function Alloc(p: Pool): AllocResult {
    if |p.stack| > 1 then Pop(p)
    else if p.unpooled == 0 then Null
    else Pop(Grow(p, GrowCount(p)))
  }

  /** MMU_pf_free. */
  function Free(p: Pool, f: int): Pool {
    p.(stack := p.stack + [f])
  }

  /** How many frames can still be handed out. */
  function Available(p: Pool): int {
    |p.stack| + p.unpooled - 1
  }

  /** NULL and the failing assert, each with its exact condition; a pool that has
      ever held a frame keeps one and never reaches the assert. */
  lemma AllocOutcome(p: Pool)
    ensures Alloc(p) == Null <==> p.unpooled == 0 && |p.stack| <= 1
    ensures Alloc(p) == Halt <==> p.unpooled == 1 && p.stack == []
    ensures Alloc(p).Taken? <==> Available(p) > 0
    ensures Alloc(p).Taken? ==>
              var q := Alloc(p).rest;
              && q.stack != []
              && Available(q) == Available(p) - 1
              && q.base + q.unpooled == p.base + p.unpooled
  {
  }

  lemma FramesAreOwned(p: Pool, f: int)
    ensures f in Frames(p) <==> Owns(p, f)
  {
    if Unpooled(p, f) {
      assert Run(p.base, p.unpooled)[f - p.base] == f;
      assert f in Run(p.base, p.unpooled);
    }
  }

  /** Moving frames from the range to the ring changes neither which frames the
      allocator owns nor where the managed memory ends. */
  lemma GrowKeepsFrames(p: Pool, k: nat)
    requires k <= p.unpooled
    ensures Frames(Grow(p, k)) == Frames(p)
    ensures forall f :: Owns(Grow(p, k), f) <==> Owns(p, f)
    ensures WellFormed(p) ==> WellFormed(Grow(p, k))
  {
    assert Run(p.base, p.unpooled) == Run(p.base, k) + Run(p.base + k, p.unpooled - k);
    forall f ensures Owns(Grow(p, k), f) <==> Owns(p, f) {
      FramesAreOwned(p, f);
      FramesAreOwned(Grow(p, k), f);
    }
    if WellFormed(p) {
      var s := Grow(p, k).stack;
      forall i | 0 <= i < |s| ensures 0 < s[i] && !Unpooled(Grow(p, k), s[i]) {
        if i < |p.stack| { assert s[i] == p.stack[i]; }
      }
      forall i, j | 0 <= i < j < |s| ensures s[i] != s[j] {
        if i < |p.stack| { assert s[i] == p.stack[i]; }
        if j < |p.stack| { assert s[j] == p.stack[j]; } else { assert Unpooled(p, s[j]); }
      }
    }
  }

  lemma PopConserves(p: Pool)
    requires |p.stack| > 1
    ensures var f, q := Pop(p).frame, Pop(p).rest;
            && multiset(Frames(p)) == multiset(Frames(q)) + multiset{f}
            && (WellFormed(p) ==> WellFormed(q) && 0 < f && !Owns(q, f))
            && forall x :: Owns(p, x) <==> Owns(q, x) || x == f
  {
    var n := |p.stack| - 1;
    var q := Pop(p).rest;
    assert p.stack == q.stack + [p.stack[n]];
    assert Frames(p) == q.stack + [p.stack[n]] + Run(q.base, q.unpooled);
  }

  /** Taking a frame removes exactly that frame and nothing else. */
  lemma AllocConserves(p: Pool)
    requires Alloc(p).Taken?
    ensures multiset(Frames(p)) == multiset(Frames(Alloc(p).rest)) + multiset{Alloc(p).frame}
    ensures forall x :: Owns(p, x) <==> Owns(Alloc(p).rest, x) || x == Alloc(p).frame
    ensures WellFormed(p) ==> WellFormed(Alloc(p).rest) && 0 < Alloc(p).frame && !Owns(Alloc(p).rest, Alloc(p).frame)
  {
    if |p.stack| > 1 {
      PopConserves(p);
    } else {
      GrowKeepsFrames(p, GrowCount(p));
      PopConserves(Grow(p, GrowCount(p)));
    }
  }

  lemma FreeConserves(p: Pool, f: int)
    ensures multiset(Frames(Free(p, f))) == multiset(Frames(p)) + multiset{f}
    ensures forall x :: Owns(Free(p, f), x) <==> Owns(p, x) || x == f
    ensures WellFormed(p) && 0 < f && !Owns(p, f) ==> WellFormed(Free(p, f))
    ensures Available(Free(p, f)) == Available(p) + 1
  {
    assert Frames(Free(p, f)) == p.stack + [f] + Run(p.base, p.unpooled);
  }

  /** Free then allocate gives the same frame back exactly when the pool was not
      empty: a ring holding only the freed frame still counts as empty. */
  lemma FreeThenAlloc(p: Pool, f: int)
    requires !Owns(p, f)
    ensures Alloc(Free(p, f)) == Taken(f, p) <==> p.stack != []
    ensures p.stack == [] && p.unpooled == 0 ==> Alloc(Free(p, f)) == Null
  {
    var q := Free(p, f);
    if p.stack != [] {
      assert q.stack[..|p.stack|] == p.stack;
    }
  }

  /** On an empty ring a freed frame stays behind: the next allocation refills the ring
      and returns the last frame moved, or fails. */
  lemma FreedFrameStaysBehind(p: Pool, f: int)
    requires p.stack == [] && !Owns(p, f)
    ensures var r := Alloc(Free(p, f));
            if p.unpooled == 0 then r == Null
            else r.Taken? && r.frame == p.base + GrowCount(p) - 1 && r.frame != f && f in r.rest.stack
  {
    if p.unpooled > 0 {
      var g := Grow(Free(p, f), GrowCount(p));
      assert g.stack == [f] + Run(p.base, GrowCount(p));
      assert Pop(g).rest.stack[0] == f;
    }
  }

  function FreeAll(p: Pool, fs: seq<int>): Pool
    decreases |fs|
  {
    if fs == [] then p else FreeAll(Free(p, fs[0]), fs[1..])
  }

  datatype Taking = Taking(frames: seq<int>, rest: Pool)

  /** Allocate until `n` frames were handed out or an allocation fails. */
  function AllocMany(p: Pool, n: nat): Taking
    decreases n
  {
    if n == 0 then Taking([], p)
    else
      match Alloc(p)
      case Taken(f, q) => var t := AllocMany(q, n - 1); Taking([f] + t.frames, t.rest)
      case _ => Taking([], p)
  }

  function Reversed(s: seq<int>): seq<int> {
    if s == [] then [] else Reversed(s[1..]) + [s[0]]
  }

  lemma {:induction false} AllocManySplit(p: Pool, a: nat, b: nat)
    requires |AllocMany(p, a).frames| == a
    ensures var t := AllocMany(p, a); var u := AllocMany(t.rest, b);
            AllocMany(p, a + b) == Taking(t.frames + u.frames, u.rest)
    decreases a
  {
    if a == 0 {
      assert [] + AllocMany(p, b).frames == AllocMany(p, b).frames;
    } else {
      var q := Alloc(p).rest;
      AllocManySplit(q, a - 1, b);
      var t := AllocMany(q, a - 1);
      var u := AllocMany(t.rest, b);
      assert [Alloc(p).frame] + (t.frames + u.frames) == ([Alloc(p).frame] + t.frames) + u.frames;
    }
  }

  lemma {:induction false} ReversedLength(s: seq<int>)
    ensures |Reversed(s)| == |s|
  {
    if s != [] { ReversedLength(s[1..]); }
  }

  /** Freeing frames one by one and then allocating as many returns them in
      reverse order and restores the pool. */
  lemma {:induction false} FreedFramesComeBackReversed(p: Pool, fs: seq<int>)
    requires p.stack != []
    ensures AllocMany(FreeAll(p, fs), |fs|) == Taking(Reversed(fs), p)
    decreases |fs|
  {
    if fs != [] {
      var q := Free(p, fs[0]);
      FreedFramesComeBackReversed(q, fs[1..]);
      ReversedLength(fs[1..]);
      AllocManySplit(FreeAll(q, fs[1..]), |fs| - 1, 1);
      assert q.stack[..|p.stack|] == p.stack;
      assert Alloc(q) == Taken(fs[0], p);
      assert AllocMany(p, 0) == Taking([], p);
      assert AllocMany(q, 1) == Taking([fs[0]], p);
    }
  }

  /** A run of allocations without frees hands out every frame but one, each
      once, and then gets NULL. */
  lemma {:induction false} AllocExhausts(p: Pool)
    requires p.stack != [] || p.unpooled >= 2
    ensures var t := AllocMany(p, Available(p));
            && |t.frames| == Available(p)
            && Alloc(t.rest) == Null
            && |Frames(t.rest)| == 1
            && multiset(Frames(p)) == multiset(t.frames) + multiset(Frames(t.rest))
    decreases Available(p)
  {
    hide *;
    AllocOutcome(p);
    if Available(p) > 0 {
      var n, f, q := Available(p), Alloc(p).frame, Alloc(p).rest;
      AllocConserves(p);
      AllocExhausts(q);
      AllocManyStep(p, n);
      var u := AllocMany(q, n - 1);
      assert multiset([f] + u.frames) == multiset{f} + multiset(u.frames);
    } else {
      OneLeft(p);
    }
  }

  lemma AllocManyStep(p: Pool, n: nat)
    requires Alloc(p).Taken? && n > 0
    ensures var u := AllocMany(Alloc(p).rest, n - 1);
            AllocMany(p, n) == Taking([Alloc(p).frame] + u.frames, u.rest)
  {
    hide Alloc;
  }

  lemma OneLeft(p: Pool)
    requires Available(p) <= 0 && (p.stack != [] || p.unpooled >= 2)
    ensures Available(p) == 0 && AllocMany(p, 0) == Taking([], p) && Alloc(p) == Null && |Frames(p)| == 1
  {
  }

  // ---- How far the range is used up --------------------------------------------

  /** A refill moves 500 frames, or all there are, and the last one moved is returned. */
  lemma RefillTakes(p: Pool)
    requires |p.stack| <= 1 && Alloc(p).Taken?
    ensures var k := if p.unpooled < 500 then p.unpooled else 500;
            && Alloc(p).frame == p.base + k - 1
            && Alloc(p).rest.base == p.base + k && Alloc(p).rest.unpooled == p.unpooled - k
            && Alloc(p).rest.stack == p.stack + Run(p.base, k - 1)
  {
    var k := if p.unpooled < 500 then p.unpooled else 500;
    assert Run(p.base, k) == Run(p.base, k - 1) + [p.base + k - 1];
    assert (p.stack + Run(p.base, k))[..|p.stack| + k - 1] == p.stack + Run(p.base, k - 1);
  }

  /** With two frames or more in the ring the last one is taken and the range stays. */
  lemma RingServes(p: Pool)
    requires |p.stack| >= 2
    ensures Alloc(p) == Taken(p.stack[|p.stack| - 1], Pool(p.stack[..|p.stack| - 1], p.base, p.unpooled))
  {
  }

  /** Frames moved out of a range of `u` by the time that `n` allocations beyond what
      the ring can serve were asked for. */
  function Moved(n: int, u: nat): nat {
    if n <= 0 then 0
    else
      var whole := 500 * ((n + 499) / 500);
      if whole < u then whole else u
  }

  /** Over any number of allocations without frees, from a ring that can serve r more,
      the range is used up in lots of 500: after n calls the next unpooled frame is
      base + min(500 * ceil((n - r) / 500), unpooled). */
  lemma {:induction false} RangeUsed(p: Pool, n: nat)
    requires p.stack != []
    ensures AllocMany(p, n).rest.base == p.base + Moved(n - (|p.stack| - 1), p.unpooled)
    decreases n
  {
    hide Alloc, Moved;
    var r := |p.stack| - 1;
    if n == 0 {
      MovedNone(0 - r, p.unpooled);
    } else if r > 0 {
      RingServes(p);
      AllocManyStep(p, n);
      RangeUsed(Alloc(p).rest, n - 1);
    } else {
      AllocOutcome(p);
      if p.unpooled == 0 {
        AllocManyNull(p, n);
        MovedAll(n);
      } else {
        var k := if p.unpooled < 500 then p.unpooled else 500;
        RefillTakes(p);
        AllocManyStep(p, n);
        RangeUsed(Alloc(p).rest, n - 1);
        MovedLot(n, p.unpooled);
      }
    }
  }

  lemma AllocManyNull(p: Pool, n: nat)
    requires Alloc(p) == Null
    ensures AllocMany(p, n) == Taking([], p)
  {
    hide Alloc;
  }

  lemma MovedNone(n: int, u: nat)
    requires n <= 0
    ensures Moved(n, u) == 0
  {
  }

  lemma MovedAll(n: int)
    ensures Moved(n, 0) == 0
  {
  }

  lemma MovedLot(n: nat, u: nat)
    requires n > 0 && u > 0
    ensures var k := if u < 500 then u else 500;
            k + Moved(n - 1 - (k - 1), u - k) == Moved(n, u)
  {
    var q := (n + 499) / 500;
    assert q >= 1;
    if u >= 500 && n > 500 {
      assert (n - 500 + 499) / 500 == q - 1;
    } else if n <= 500 {
      assert q == 1;
    }
  }
}
