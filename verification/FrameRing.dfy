/** The free list of pf_alloc.c as it lies in memory: a circular doubly linked
    list threaded through the first two words of the free frames themselves,
    with its head in frame 0. */
module FrameRing {
  import opened MachineWords
  import opened PhysicalMemory
  import opened Sequences

  function NextOf(c: seq<int>, i: nat): int
    requires i < |c|
  {
    if i + 1 == |c| then c[0] else c[i + 1]
  }

  function PrevOf(c: seq<int>, i: nat): int
    requires i < |c|
  {
    if i == 0 then c[|c| - 1] else c[i - 1]
  }

  /** Element `i` of the ring lies in memory and points at its neighbours. */
  ghost predicate LinkAt(m: Memory, c: seq<int>, i: nat)
    requires i < |c|
  {
    0 <= c[i] < |m| && m[c[i]][0] == 4096 * NextOf(c, i) && m[c[i]][1] == 4096 * PrevOf(c, i)
  }

  /** The ring in memory visits exactly the frames of `c`, head first. */
  ghost predicate Linked(m: Memory, c: seq<int>) {
    && |c| > 0 && c[0] == 0 && Distinct(c)
    && 0 < |m| <= MAX_FRAMES
    && forall i :: 0 <= i < |c| ==> LinkAt(m, c, i)
  }

  /** Nothing but the link words of ring frames differs. */
  ghost predicate OnlyLinksDiffer(m: Memory, m': Memory, c: seq<int>) {
    && |m'| == |m|
    && (forall g :: 0 <= g < |m| && g !in c ==> m'[g] == m[g])
    && forall g, i :: 0 <= g < |m| && 2 <= i < 512 ==> m'[g][i] == m[g][i]
  }

  /** `is_empty` compares the head's two links, so it also holds of one frame. */
  lemma IsEmptyMeans(m: Memory, c: seq<int>)
    requires Linked(m, c)
    ensures m[0][0] == m[0][1] <==> |c| <= 2
  {
    assert LinkAt(m, c, 0);
  }

  /** Frame reached by following one link word; 0 outside memory. */
  function Hop(m: Memory, f: int, word: int): int
    requires word == 0 || word == 1
  {
    if 0 <= f < |m| then m[f][word] / 4096 else 0
  }

  function Forward(m: Memory, n: nat): int {
    if n == 0 then 0 else Hop(m, Forward(m, n - 1), 0)
  }

  function Backward(m: Memory, n: nat): int {
    if n == 0 then 0 else Hop(m, Backward(m, n - 1), 1)
  }

  /** Following `next` visits the free frames in order and comes back to the head;
      following `prev` visits them in the opposite order. */
  lemma {:induction false} TraversalsMirror(m: Memory, c: seq<int>, n: nat)
    requires Linked(m, c) && n <= |c|
    ensures Forward(m, n) == if n == |c| then 0 else c[n]
    ensures Backward(m, n) == if n == 0 then 0 else c[|c| - n]
    ensures Forward(m, |c|) == 0 == Backward(m, |c|)
    ensures Backward(m, |c| - n) == Forward(m, n)
  {
    ForwardIs(m, c, n);
    ForwardIs(m, c, |c|);
    BackwardIs(m, c, n);
    BackwardIs(m, c, |c|);
    BackwardIs(m, c, |c| - n);
  }

  lemma {:induction false} ForwardIs(m: Memory, c: seq<int>, n: nat)
    requires Linked(m, c) && n <= |c|
    ensures Forward(m, n) == if n == |c| then 0 else c[n]
  {
    if n > 0 {
      ForwardIs(m, c, n - 1);
      assert LinkAt(m, c, n - 1);
    }
  }

  lemma {:induction false} BackwardIs(m: Memory, c: seq<int>, n: nat)
    requires Linked(m, c) && n <= |c|
    ensures Backward(m, n) == if n == 0 then 0 else c[|c| - n]
  {
    if n > 0 {
      BackwardIs(m, c, n - 1);
      var i := if n == 1 then 0 else |c| - n + 1;
      assert LinkAt(m, c, i);
    }
  }

  lemma AddKeepsRing(m: Memory, m': Memory, c: seq<int>, f: int)
    requires Linked(m, c) && 0 < f < |m| && f !in c
    requires |m'| == |m|
    requires m'[f][0] == 0 && m'[f][1] == 4096 * c[|c| - 1]
    requires forall g :: 0 <= g < |m| && g != f ==>
               && m'[g][0] == (if g == c[|c| - 1] then 4096 * f else m[g][0])
               && m'[g][1] == (if g == 0 then 4096 * f else m[g][1])
    ensures Linked(m', c + [f])
  {
    var d := c + [f];
    forall i | 0 <= i < |d|
      ensures LinkAt(m', d, i)
    {
      if i < |c| {
        assert LinkAt(m, c, i);
        assert d[i] == c[i] != f;
      }
    }
  }

  lemma PopKeepsRing(m: Memory, m': Memory, c: seq<int>)
    requires Linked(m, c) && |c| >= 3
    requires |m'| == |m|
    requires forall g :: 0 <= g < |m| ==>
               && m'[g][0] == (if g == c[|c| - 2] then 0 else m[g][0])
               && m'[g][1] == (if g == 0 then 4096 * c[|c| - 2] else m[g][1])
    ensures Linked(m', c[..|c| - 1])
  {
    var d := c[..|c| - 1];
    forall i | 0 <= i < |d|
      ensures LinkAt(m', d, i)
    {
      assert LinkAt(m, c, i);
      assert d[i] == c[i];
    }
  }

  /** add_elem */
  method AddElem(ram: Ram, head: u64, new_ptr: u64, ghost c: seq<int>)
    requires Linked(ram.frames, c) && head == 0
    requires IsFrame(ram.frames, new_ptr) && new_ptr / 4096 !in c
    modifies ram
    ensures Linked(ram.frames, c + [new_ptr / 4096])
    ensures OnlyLinksDiffer(old(ram.frames), ram.frames, c + [new_ptr / 4096])
  {
    ghost var m, f := ram.frames, new_ptr / 4096;
    assert f != c[0];
    assert LinkAt(m, c, 0) && LinkAt(m, c, |c| - 1);
    ram.Set(new_ptr, 0, head);
    var last := ram.Get(head, 1);
    assert last / 4096 == c[|c| - 1];
    ram.Set(new_ptr, 1, last);
    ram.Set(last, 0, new_ptr);
    ram.Set(head, 1, new_ptr);
    AddKeepsRing(m, ram.frames, c, f);
  }

  /** pop_elem */
  method PopElem(ram: Ram, head: u64, ghost c: seq<int>) returns (popped: u64)
    requires Linked(ram.frames, c) && head == 0 && |c| >= 3
    modifies ram
    ensures popped == 4096 * c[|c| - 1]
    ensures Linked(ram.frames, c[..|c| - 1])
    ensures OnlyLinksDiffer(old(ram.frames), ram.frames, c[..|c| - 1])
  {
    ghost var m, n := ram.frames, |c| - 1;
    ghost var f, g := c[n], c[n - 1];
    assert f != c[0] && f != g;
    assert LinkAt(m, c, 0) && LinkAt(m, c, n) && LinkAt(m, c, n - 1);
    assert g == c[..n][n - 1];
    popped := ram.Get(head, 1);
    var before := ram.Get(popped, 1);
    ram.Set(before, 0, head);
    assert ram.frames == Put(m, g, 0, 0);
    before := ram.Get(popped, 1);
    ram.Set(head, 1, before);
    assert ram.frames == Put(Put(m, g, 0, 0), 0, 1, 4096 * g);
    PopKeepsRing(m, ram.frames, c);
  }

  /** is_empty */
  method IsEmpty(ram: Ram, head: u64, ghost c: seq<int>) returns (empty: bool)
    requires Linked(ram.frames, c) && head == 0
    ensures empty <==> |c| <= 2
  {
    assert LinkAt(ram.frames, c, 0);
    var next := ram.Get(head, 0);
    var prev := ram.Get(head, 1);
    IsEmptyMeans(ram.frames, c);
    empty := next == prev;
  }
}
