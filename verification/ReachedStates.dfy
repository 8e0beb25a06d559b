/** Runs from a new buffer to the states that show what the heap can come to. */
module ReachedStates {
  import opened Layouts
  import opened HeapSpec
  import opened HeapRuns
  import AllocatedBlocks
  import ResetSpec
  import CoalescedHeap
  import VectorOutcomes

  // ---- Steps in a heap of few blocks ----

  lemma OneStep(s: State, ops: seq<Op>, cfg: Config, t: State)
    requires s.Inv() && ops != [] && Legal(s, ops[0]) && Step(s, ops[0], cfg) == Some(t)
    ensures t.Inv() && Run(s, ops, cfg) == Run(t, ops[1..], cfg)
    ensures Run(s, ops, cfg).Some? ==>
      TailMerges(s, ops, cfg) == (if StepLoss(s, ops[0], cfg) > 0 then 1 else 0) + TailMerges(t, ops[1..], cfg)
  {
    hide State.Inv, Step, StepLoss;
  }

  /** The heap with a block of n bytes at the start of the one free block, f. */
  function WithBlock(s: State, f: nat, n: nat): State
    requires f in s.l.tiles && n + HEADER <= s.l.tiles[f].len
  {
    var rest := s.l.tiles[f].len - n - HEADER;
    if rest == 0 then s.(l := s.l.(tiles := s.l.tiles[f := Tile(n + HEADER, Regular)], free := []))
    else
      s.(hwm := Max(s.hwm, f + n + 2 * HEADER),
         l := s.l.(tiles := s.l.tiles[f := Tile(n + HEADER, Regular)][f + n + HEADER := Tile(rest, Free)],
                   free := [f + n + HEADER]))
  }

  lemma GetStep(s: State, f: nat, n: nat, cfg: Config)
    requires s.Inv() && !s.failed && s.l.free == [f] && f in s.l.tiles && HEADER <= s.hwm
    requires 0 < n && n % 8 == 0 && n <= 0xFFFF_FFF8
    requires n + HEADER == s.l.tiles[f].len || n + 2 * HEADER <= s.l.tiles[f].len
    ensures Legal(s, Get(n, false)) && Step(s, Get(n, false), cfg) == Some(WithBlock(s, f, n))
  {
    hide Layout.Tiled, Layout.Listed, Align8, Carve, WithBlock, Take;
    Align8Covers(n);
    TileIs(s.l, f);
    CarveIs(s, f, n, cfg);
    AllocationIsOk(s, n, false, cfg, true);
  }

  lemma CarveIs(s: State, f: nat, n: nat, cfg: Config)
    requires s.Inv() && !s.failed && s.l.free == [f] && f in s.l.tiles && HEADER <= s.hwm
    requires n + HEADER == s.l.tiles[f].len || n + 2 * HEADER <= s.l.tiles[f].len
    ensures Carve(s, n, Regular, cfg, true) == Block(f + HEADER, WithBlock(s, f, n))
  {
    hide Layout.Tiled, Layout.Listed, FirstFit, Take;
    TakeIs(s, f, n);
    OnlyFit(s.l, n + HEADER);
  }

  lemma OnlyFit(l: Layout, need: nat)
    requires l.Inv() && |l.free| == 1 && l.free[0] in l.tiles && l.tiles[l.free[0]].len >= need
    ensures FirstFit(l, need, 0) == 0
  {
  }

  lemma TakeIs(s: State, f: nat, n: nat)
    requires s.l.free == [f] && f in s.l.tiles
    requires n + HEADER == s.l.tiles[f].len || n + 2 * HEADER <= s.l.tiles[f].len
    ensures Take(s.l, 0, n + HEADER, Regular) == WithBlock(s, f, n).l
  {
    assert Take(s.l, 0, n + HEADER, Regular).tiles == WithBlock(s, f, n).l.tiles;
    assert Take(s.l, 0, n + HEADER, Regular).free == WithBlock(s, f, n).l.free;
  }

  lemma TileIs(l: Layout, f: nat)
    requires l.Inv() && f in l.tiles
    ensures l.tiles[f].len <= l.full && f + l.tiles[f].len <= l.full
  {
    TileAt(l, f);
  }

  /** The heap with the block at p free, as block i, touching no other. */
  ghost function WithFree(s: State, p: nat, i: nat): State
    requires LiveAt(s.l, p) && i <= |s.l.free|
  {
    s.(l := Give(s.l, i, p - HEADER))
  }

  lemma PutStep(s: State, p: nat, cfg: Config)
    requires s.Inv() && !s.failed && LiveAt(s.l, p) && s.l.tiles[p - HEADER].kind.Regular?
    requires s.l.free == [] || (|s.l.free| == 1 && s.l.free[0] < p - HEADER && !JoinsBelow(s.l, 1, p - HEADER))
    ensures Legal(s, Put(p)) && Step(s, Put(p), cfg) == Some(WithFree(s, p, |s.l.free|))
    ensures StepLoss(s, Put(p), cfg) == 0
  {
    hide Layout.Tiled, Layout.Listed;
    var o := p - HEADER;
    MarkInv(s.l, o, Lost);
    BelowUnique(s.l.free, o, |s.l.free|);
    assert Give(Mark(s.l, o, Lost), |s.l.free|, o) == Give(s.l, |s.l.free|, o);
  }

  // ---- A run that loses bytes ----

  const LOSING: seq<Op> := [Get(16, false), Get(16, false), Put(48), Put(72)]

  /** Two blocks fill a new buffer; freeing the first and then the second loses 8 bytes. */
  lemma FreeingCanLoseBytes(cfg: Config)
    ensures Fresh(40, 88).Inv() && Run(Fresh(40, 88), LOSING, cfg).Some?
    ensures TailMerges(Fresh(40, 88), LOSING, cfg) == 1
    ensures Bytes(Run(Fresh(40, 88), LOSING, cfg).value.l, InLost) == 8
  {
    hide Step, StepLoss, Bytes;
    FreshInv(40, 88);
    var s0 := Fresh(40, 88);
    GetStep(s0, 40, 16, cfg);
    var s1 := WithBlock(s0, 40, 16);
    OneStep(s0, LOSING, cfg, s1);
    GetStep(s1, 64, 16, cfg);
    var s2 := WithBlock(s1, 64, 16);
    OneStep(s1, LOSING[1..], cfg, s2);
    PutStep(s2, 48, cfg);
    var s3 := WithFree(s2, 48, 0);
    OneStep(s2, LOSING[1..][1..], cfg, s3);
    LosingStep(s3, cfg);
    var s4 := Release(s3, 72);
    assert LOSING[1..][1..][1..] == [Put(72)];
    OneStep(s3, [Put(72)], cfg, s4);
    GetsLoseNothing(s0, s1, cfg);
    RunConservesBytes(s0, LOSING, cfg);
    FreshLost(40, 88);
  }

  lemma GetsLoseNothing(s: State, t: State, cfg: Config)
    requires s.Inv() && t.Inv()
    ensures StepLoss(s, Get(16, false), cfg) == StepLoss(t, Get(16, false), cfg) == 0
  {
    hide State.Inv;
  }

  lemma LosingStep(s: State, cfg: Config)
    requires s.Inv() && !s.failed && s.l.free == [40] && LiveAt(s.l, 72) && s.l.tiles[64].kind.Regular?
    requires 40 in s.l.tiles && s.l.End(40) == 64
    ensures Legal(s, Put(72)) && Step(s, Put(72), cfg) == Some(Release(s, 72)) && !Release(s, 72).failed
    ensures StepLoss(s, Put(72), cfg) == HEADER
  {
    hide Layout.Tiled, Layout.Listed, Insert;
    MarkInv(s.l, 64, Lost);
    BelowUnique(s.l.free, 64, 1);
  }

  lemma FreshLost(start: nat, full: nat)
    requires start < full
    ensures Bytes(Fresh(start, full).l, InLost) == 0
  {
    assert Walk(Fresh(start, full).l.tiles, full, full, InLost) == 0;
  }

  // ---- The states of the other witnesses ----

  /** The marked buffer in which a block is kept by mistake. */
  lemma TightIsReached(cfg: Config)
    ensures Fresh(40, 128).Inv()
    ensures Run(Fresh(40, 128), [Get(16, false)], cfg) == Some(ResetSpec.Tight(Tile(64, Free), map[], [64]))
  {
    hide Step;
    FreshInv(40, 128);
    var s := Fresh(40, 128);
    GetStep(s, 40, 16, cfg);
    OneStep(s, [Get(16, false)], cfg, WithBlock(s, 40, 16));
    assert WithBlock(s, 40, 16).l.tiles == ResetSpec.Tight(Tile(64, Free), map[], [64]).l.tiles;
  }

  /** The buffer in which a resize takes a block's bytes away. */
  lemma FirstBlockIsReached(cfg: Config)
    ensures Fresh(40, 4096).Inv()
    ensures Run(Fresh(40, 4096), [Get(16, false)], cfg) == Some(AllocatedBlocks.FirstBlock())
  {
    hide Step;
    FreshInv(40, 4096);
    var s := Fresh(40, 4096);
    GetStep(s, 40, 16, cfg);
    OneStep(s, [Get(16, false)], cfg, WithBlock(s, 40, 16));
    assert WithBlock(s, 40, 16).l.tiles == AllocatedBlocks.FirstBlock().l.tiles;
  }

  /** The full buffer in which an insertion loses an element. */
  lemma TwoBlocksAreReached(cfg: Config)
    ensures Fresh(40, 96).Inv()
    ensures Run(Fresh(40, 96), [Get(16, false), Get(24, false)], cfg) == Some(VectorOutcomes.TwoBlocks())
  {
    hide Step;
    FreshInv(40, 96);
    var s, ops := Fresh(40, 96), [Get(16, false), Get(24, false)];
    GetStep(s, 40, 16, cfg);
    var s1 := WithBlock(s, 40, 16);
    OneStep(s, ops, cfg, s1);
    GetStep(s1, 64, 24, cfg);
    assert ops[1..] == [Get(24, false)];
    OneStep(s1, [Get(24, false)], cfg, WithBlock(s1, 64, 24));
    assert WithBlock(s1, 64, 24).l.tiles == VectorOutcomes.TwoBlocks().l.tiles;
  }

  const FOUR: seq<Op> :=
    [Get(40, false), Get(16, false), Get(16, false), Get(24, false), Put(48), Put(120)]

  /** The buffer in which a resize leaves two free blocks touching. */
  lemma FourBlocksAreReached(cfg: Config)
    ensures Fresh(40, 168).Inv() && Run(Fresh(40, 168), FOUR, cfg) == Some(CoalescedHeap.FourBlocks())
  {
    hide Step;
    FreshInv(40, 168);
    var s0 := Fresh(40, 168);
    GetStep(s0, 40, 40, cfg);
    var s1 := WithBlock(s0, 40, 40);
    OneStep(s0, FOUR, cfg, s1);
    GetStep(s1, 88, 16, cfg);
    var s2 := WithBlock(s1, 88, 16);
    OneStep(s1, FOUR[1..], cfg, s2);
    assert FOUR[1..][1..] == REST;
    LastTwoBlocks(s2, cfg);
  }

  const REST: seq<Op> := [Get(16, false), Get(24, false), Put(48), Put(120)]

  lemma LastTwoBlocks(s: State, cfg: Config)
    requires s.Inv() && !s.failed && s.hwm == 120 && s.l.start == 40 && s.l.full == 168 && s.l.free == [112]
    requires s.l.idle == [[], [], [], []]
    requires s.l.tiles == map[40 := Tile(48, Regular), 88 := Tile(24, Regular), 112 := Tile(56, Free)]
    ensures Run(s, REST, cfg) == Some(CoalescedHeap.FourBlocks())
  {
    hide Step;
    GetStep(s, 112, 16, cfg);
    var s1 := WithBlock(s, 112, 16);
    OneStep(s, REST, cfg, s1);
    GetStep(s1, 136, 24, cfg);
    var s2 := WithBlock(s1, 136, 24);
    OneStep(s1, REST[1..], cfg, s2);
    FourBlocksFreed(s2, cfg);
    assert REST[1..][1..] == [Put(48), Put(120)];
  }

  lemma FourBlocksFreed(s: State, cfg: Config)
    requires s.Inv() && !s.failed && s.hwm == 144 && s.l.start == 40 && s.l.full == 168 && s.l.free == []
    requires s.l.idle == [[], [], [], []]
    requires s.l.tiles == map[40 := Tile(48, Regular), 88 := Tile(24, Regular), 112 := Tile(24, Regular),
                              136 := Tile(32, Regular)]
    ensures Run(s, [Put(48), Put(120)], cfg) == Some(CoalescedHeap.FourBlocks())
  {
    hide Step;
    PutStep(s, 48, cfg);
    var t := WithFree(s, 48, 0);
    OneStep(s, [Put(48), Put(120)], cfg, t);
    PutStep(t, 120, cfg);
    assert [Put(48), Put(120)][1..] == [Put(120)];
    OneStep(t, [Put(120)], cfg, WithFree(t, 120, 1));
    assert WithFree(t, 120, 1).l.tiles == CoalescedHeap.FourBlocks().l.tiles;
    assert WithFree(t, 120, 1).l.free == [40, 112];
  }
}
