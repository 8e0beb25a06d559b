/**
What is sent: the buffer's bytes up to its high-water mark.  They hold every block in use, unless a block was
taken at the very end of the buffer.
*/
module SentBytes {
  import opened Layouts
  import opened HeapSpec
  import opened HeapRuns

  /** Allocated, or kept for the next allocation of its class. */
  predicate InUse(k: Kind) {
    k.Regular? || k.Small? || k.Idle?
  }

  ghost predicate EndsBelow(l: Layout, o: nat, h: nat) {
    o in l.tiles && InUse(l.tiles[o].kind) ==> l.End(o) <= h
  }

  /** Every tile in use ends at or below h. */
  ghost predicate Under(l: Layout, h: nat) {
    forall o {:trigger EndsBelow(l, o, h)} :: EndsBelow(l, o, h)
  }

  /** The first `hwm` bytes, which is what is sent, hold every block in use. */
  ghost predicate Covered(s: State) {
    Under(s.l, s.hwm)
  }

  lemma UnderAt(l: Layout, o: nat, h: nat)
    requires Under(l, h) && o in l.tiles && InUse(l.tiles[o].kind)
    ensures l.End(o) <= h
  {
    assert EndsBelow(l, o, h);
  }

  // ---- Moves ----

  lemma HigherUnder(l: Layout, h: nat, g: nat)
    requires Under(l, h) && h <= g
    ensures Under(l, g)
  {
    forall o: nat ensures EndsBelow(l, o, g) { assert EndsBelow(l, o, h); }
  }

  lemma HoldUnder(l: Layout, i: nat, h: nat)
    requires Under(l, h) && i < |l.free| && l.free[i] in l.tiles
    ensures Under(Hold(l, i), h)
  {
    forall o: nat ensures EndsBelow(Hold(l, i), o, h) { assert EndsBelow(l, o, h); }
  }

  lemma GiveUnder(l: Layout, i: nat, o: nat, h: nat)
    requires Under(l, h) && i <= |l.free| && o in l.tiles
    ensures Under(Give(l, i, o), h)
  {
    forall x: nat ensures EndsBelow(Give(l, i, o), x, h) { assert EndsBelow(l, x, h); }
  }

  lemma CutUnder(l: Layout, o: nat, len: nat, h: nat)
    requires Under(l, h) && o in l.tiles && len <= l.tiles[o].len
    ensures Under(Cut(l, o, len), h)
  {
    forall x: nat ensures EndsBelow(Cut(l, o, len), x, h) { assert EndsBelow(l, x, h); }
  }

  lemma FuseUnder(l: Layout, o: nat, h: nat)
    requires Under(l, h) && o in l.tiles && l.End(o) in l.tiles
    ensures Under(Fuse(l, o), h)
  {
    forall x: nat ensures EndsBelow(Fuse(l, o), x, h) { assert EndsBelow(l, x, h); }
  }

  /** Putting a tile to use is all right exactly if it ends below h. */
  lemma MarkUnder(l: Layout, o: nat, kind: Kind, h: nat)
    requires Under(l, h) && o in l.tiles
    ensures Under(Mark(l, o, kind), h) <==> InUse(kind) ==> l.End(o) <= h
  {
    var r := Mark(l, o, kind);
    if InUse(kind) ==> l.End(o) <= h {
      forall x: nat ensures EndsBelow(r, x, h) { assert EndsBelow(l, x, h); }
    } else {
      assert !EndsBelow(r, o, h);
    }
  }

  // ---- Operations ----

  /** A block of `need` bytes from free block i ends past the mark, and no free block's header raises that. */
  ghost predicate TakesEnd(l: Layout, hwm: nat, i: nat, need: nat, inPlace: bool)
    requires i < |l.free| && l.free[i] in l.tiles && need <= l.tiles[l.free[i]].len
  {
    && hwm < l.free[i] + need
    && (if l.tiles[l.free[i]].len - need >= HEADER then !(inPlace && i == 0) && l.free[i] + need + HEADER >= l.full
        else i + 1 >= |l.free|)
  }

  lemma MarkReaches(l: Layout, hwm: nat, i: nat, need: nat, inPlace: bool)
    requires l.Inv() && l.start > 0 && i < |l.free| && l.free[i] in l.tiles && 0 < need <= l.tiles[l.free[i]].len
    requires need % 8 == 0
    ensures hwm <= TakeHwm(l, i, need, hwm, inPlace)
    ensures l.free[i] + need <= TakeHwm(l, i, need, hwm, inPlace) <==> !TakesEnd(l, hwm, i, need, inPlace)
  {
    assert l.FreeAt(i) && l.TileOk(l.free[i]);
    if i + 1 < |l.free| { assert l.FreeAt(i + 1) && l.Apart(l.free[i], l.free[i + 1]); }
  }

  lemma PortionUnder(l: Layout, i: nat, f: nat, need: nat, kind: Kind, h: nat)
    requires Under(l, h) && f in l.tiles && l.tiles[f].len >= need && i <= |l.free|
    requires 0 < need && (l.tiles[f].len < need + HEADER ==> l.tiles[f].len == need)
    ensures Under(Portion(l, i, f, need, kind), h) <==> InUse(kind) ==> f + need <= h
  {
    hide Under;
    if l.tiles[f].len - need >= HEADER {
      CutUnder(l, f, need, h);
      GiveUnder(Cut(l, f, need), i, f + need, h);
    }
    MarkUnder(Rest(l, i, f, need), f, kind, h);
  }

  lemma TakeUnder(l: Layout, i: nat, need: nat, kind: Kind, h: nat)
    requires l.Inv() && Under(l, h) && i < |l.free| && l.free[i] in l.tiles && 0 < need <= l.tiles[l.free[i]].len
    requires need % 8 == 0
    ensures Under(Take(l, i, need, kind), h) <==> InUse(kind) ==> l.free[i] + need <= h
  {
    hide Under, Layout.Listed;
    TileAt(l, l.free[i]);
    HoldUnder(l, i, h);
    PortionUnder(Hold(l, i), i, l.free[i], need, kind, h);
  }

  lemma TakeInUnder(l: Layout, i: nat, o: nat, h: nat)
    requires Under(l, h) && JoinsAbove(l, i, o) && i < |l.free|
    ensures Under(TakeInAbove(l, i, o), h)
  {
    hide Under;
    HoldUnder(l, i, h);
    FuseUnder(Hold(l, i), o, h);
  }

  /** Off the list and joined with the tile at o, which follows it. */
  lemma HeldUnder(l: Layout, i: nat, o: nat, h: nat)
    requires Under(l, h) && JoinsBelow(l, i, o) && o in l.tiles
    ensures Under(Fuse(Hold(l, i - 1), l.free[i - 1]), h)
  {
    hide Under;
    HoldUnder(l, i - 1, h);
    FuseUnder(Hold(l, i - 1), l.free[i - 1], h);
  }

  lemma JoinUnder(l: Layout, i: nat, o: nat, h: nat)
    requires l.Inv() && Under(l, h) && JoinsBelow(l, i, o) && o in l.tiles && l.tiles[o].kind.Lost?
    ensures Under(JoinBelow(l, i, o), h)
    ensures HEADER <= l.tiles[o].len && Under(JoinBelowShort(l, i, o), h)
  {
    hide Under, Layout.Listed, Layout.Tiled;
    var q := l.free[i - 1];
    TileAt(l, o);
    HeldBetween(l, i - 1);
    FuseInv(Hold(l, i - 1), q);
    var g := Fuse(Hold(l, i - 1), q);
    var len := l.tiles[q].len + l.tiles[o].len - HEADER;
    HeldUnder(l, i, o, h);
    GiveUnder(g, i - 1, q, h);
    CutUnder(g, q, len, h);
    GiveUnder(Cut(g, q, len), i - 1, q, h);
  }

  lemma InsertUnder(l: Layout, o: nat, h: nat)
    requires l.Inv() && Under(l, h) && o in l.tiles && l.tiles[o].kind.Lost?
    ensures Under(Insert(l, o), h)
  {
    hide Layout.Tiled, Layout.Listed, Under, JoinBelow, JoinBelowShort, TakeInAbove, Give;
    var i := Below(l.free, o);
    if i == |l.free| {
      if JoinsBelow(l, i, o) { JoinUnder(l, i, o, h); } else { GiveUnder(l, i, o, h); }
    } else {
      if JoinsAbove(l, i, o) {
        TakeInAboveInv(l, i, o);
        TakeInUnder(l, i, o, h);
      }
      var up := if JoinsAbove(l, i, o) then TakeInAbove(l, i, o) else l;
      if JoinsBelow(up, i, o) { JoinUnder(up, i, o, h); } else { GiveUnder(up, i, o, h); }
    }
  }

  lemma GrowUnder(l: Layout, newFull: nat, h: nat)
    requires l.Inv() && Under(l, h) && l.full + HEADER <= newFull && newFull % 8 == 0
    ensures Under(Grow(l, newFull), h)
  {
    hide Layout.Tiled, Layout.Listed, JoinBelow, JoinBelowShort, Give;
    var k, o := |l.free|, l.full;
    var e := Extend(l, newFull);
    ExtendInv(l, newFull);
    forall x: nat ensures EndsBelow(e, x, h) { assert EndsBelow(l, x, h); }
    hide Under;
    if JoinsBelow(e, k, o) { JoinUnder(e, k, o, h); } else { GiveUnder(e, k, o, h); }
  }

  lemma DropUnder(l: Layout, h: nat)
    requires Under(l, h)
    ensures Under(DropLists(l), h)
  {
    forall x: nat ensures EndsBelow(DropLists(l), x, h) { assert EndsBelow(l, x, h); }
  }

  // ---- Allocating ----

  /** The block of `size` bytes that is taken, once the buffer has grown enough, is one that TakesEnd(). */
  ghost predicate CarveTakesEnd(s: State, size: nat, cfg: Config, inPlace: bool)
    requires s.Inv() && !s.failed
    decreases Growths(s.l, size + HEADER)
  {
    var need := size + HEADER;
    var i := FirstFit(s.l, need, 0);
    if i < |s.l.free| then TakesEnd(s.l, s.hwm, i, need, inPlace)
    else
      var newFull := Doubled(2 * s.l.full, need);
      && cfg.movable && newFull <= cfg.limit && size != 0
      && (GrowthsDecrease(s.l, need, newFull);
          CarveTakesEnd(s.(l := Grow(s.l, newFull)), size, cfg, true))
  }

  /** Allocating n bytes takes the end of the buffer without raising the mark past the block. */
  ghost predicate AllocationTakesEnd(s: State, n: nat, small: bool, cfg: Config)
    requires s.Inv()
  {
    && n != 0 && !s.failed
    && (if small && cfg.bitmaps && ClassOf(n) < CLASSES
        then s.l.idle[ClassOf(n)] == [] && CarveTakesEnd(s, ClassSize(ClassOf(n)), cfg, true)
        else CarveTakesEnd(s, Align8(n), cfg, n <= s.l.full))
  }

  /** The new block ends past the mark. */
  ghost predicate Sticks(r: Outcome) {
    r.Block? && r.p >= HEADER && !EndsBelow(r.s.l, r.p - HEADER, r.s.hwm)
  }

  lemma TakeInUse(l: Layout, i: nat, need: nat, kind: Kind)
    requires l.Inv() && i < |l.free| && l.free[i] in l.tiles && 0 < need <= l.tiles[l.free[i]].len && need % 8 == 0
    ensures l.free[i] in Take(l, i, need, kind).tiles && Take(l, i, need, kind).tiles[l.free[i]] == Tile(need, kind)
  {
    TileAt(l, l.free[i]);
  }

  lemma CarveCovered(s: State, size: nat, kind: Kind, cfg: Config, inPlace: bool)
    requires s.Inv() && !s.failed && Covered(s) && size % 8 == 0 && InUse(kind)
    ensures var r := Carve(s, size, kind, cfg, inPlace);
      && (!r.Aborted? ==> (Covered(r.s) <==> !CarveTakesEnd(s, size, cfg, inPlace)))
      && (!r.Aborted? && CarveTakesEnd(s, size, cfg, inPlace) ==> Sticks(r))
    decreases Growths(s.l, size + HEADER)
  {
    hide Layout.Tiled, Layout.Listed, Doubled, Growths, Take, TakeHwm, TakesEnd, Grow, Under;
    var need := size + HEADER;
    var i := FirstFit(s.l, need, 0);
    if i < |s.l.free| {
      MarkReaches(s.l, s.hwm, i, need, inPlace);
      var h := TakeHwm(s.l, i, need, s.hwm, inPlace);
      HigherUnder(s.l, s.hwm, h);
      TakeUnder(s.l, i, need, kind, h);
      TakeInUse(s.l, i, need, kind);
      assert EndsBelow(Take(s.l, i, need, kind), s.l.free[i], h) <==> s.l.free[i] + need <= h;
    } else if !cfg.movable {
      DropUnder(s.l, s.hwm);
    } else if Doubled(2 * s.l.full, need) <= cfg.limit {
      var newFull := Doubled(2 * s.l.full, need);
      GrowthsDecrease(s.l, need, newFull);
      GrowUnder(s.l, newFull, s.hwm);
      if size != 0 { CarveCovered(s.(l := Grow(s.l, newFull)), size, kind, cfg, true); }
    }
  }

  lemma PopUnder(l: Layout, c: nat, n: nat, h: nat)
    requires Under(l, h) && l.IdleAt(c, 0) && c < CLASSES && |l.idle[c]| > 0
    ensures Under(Mark(PopIdle(l, c), l.idle[c][0] - HEADER, Small(n)), h)
  {
    var r := Mark(PopIdle(l, c), l.idle[c][0] - HEADER, Small(n));
    forall x: nat ensures EndsBelow(r, x, h) { assert EndsBelow(l, x, h); }
  }

  lemma AllocationCovered(s: State, n: nat, small: bool, cfg: Config)
    requires s.Inv() && Covered(s)
    ensures var r := Allocation(s, n, small, cfg, true);
      && (!r.Aborted? ==> (Covered(r.s) <==> !AllocationTakesEnd(s, n, small, cfg)))
      && (!r.Aborted? && AllocationTakesEnd(s, n, small, cfg) ==> Sticks(r))
  {
    hide Layout.Tiled, Align8, Carve, CarveTakesEnd, Under, EndsBelow;
    if n != 0 && !s.failed {
      if small && cfg.bitmaps && ClassOf(n) < CLASSES {
        var c := ClassOf(n);
        if |s.l.idle[c]| > 0 {
          PopUnder(s.l, c, n, s.hwm);
        } else {
          CarveCovered(s, ClassSize(c), Small(n), cfg, true);
        }
      } else {
        Align8Multiple(n);
        CarveCovered(s, Align8(n), Regular, cfg, n <= s.l.full);
      }
    }
  }

  // ---- Freeing and resizing ----

  lemma ReleaseCovered(s: State, p: nat)
    requires s.Inv() && Covered(s) && LiveAt(s.l, p)
    ensures Covered(Release(s, p))
  {
    hide Layout.Tiled, Layout.Listed, Insert;
    var o := p - HEADER;
    MarkInv(s.l, o, Lost);
    MarkUnder(s.l, o, Lost, s.hwm);
    if !s.failed {
      if s.l.tiles[o].kind.Regular? {
        InsertUnder(Mark(s.l, o, Lost), o, s.hwm);
      } else {
        var r := Release(s, p).l;
        forall x: nat ensures EndsBelow(r, x, s.hwm) { assert EndsBelow(s.l, x, s.hwm); }
      }
    }
  }

  lemma ShrinkCovered(s: State, o: nat, size: nat)
    requires s.Inv() && Covered(s) && Live(s.l, o) && s.l.tiles[o].kind.Regular?
    requires size % 8 == 0 && size + 2 * HEADER <= s.l.tiles[o].len
    ensures Covered(Shrink(s, o, size))
  {
    hide Layout.Tiled, Layout.Listed, Insert, Under;
    UnderAt(s.l, o, s.hwm);
    MarkInv(s.l, o, Lost);
    CutInv(Mark(s.l, o, Lost), o, size + HEADER);
    MarkInv(Cut(Mark(s.l, o, Lost), o, size + HEADER), o, Regular);
    MarkUnder(s.l, o, Lost, s.hwm);
    CutUnder(Mark(s.l, o, Lost), o, size + HEADER, s.hwm);
    MarkUnder(Cut(Mark(s.l, o, Lost), o, size + HEADER), o, Regular, s.hwm);
    if !s.failed {
      InsertUnder(Mark(Cut(Mark(s.l, o, Lost), o, size + HEADER), o, Regular), o + HEADER + size, s.hwm);
    }
  }

  lemma ExpandUpCovered(l: Layout, i: nat, o: nat, more: nat, h: nat)
    requires l.Inv() && Under(l, h) && Live(l, o) && JoinsAbove(l, i, o)
    requires 0 < more && more % 8 == 0 && more + HEADER <= l.tiles[l.free[i]].len
    ensures Under(ExpandUp(l, i, o, more), Max(h, l.free[i] + more))
  {
    hide Layout.Tiled, Layout.Listed, Under;
    var f, m, g := l.free[i], Mark(l, o, Lost), Max(h, l.free[i] + more);
    HigherUnder(l, h, g);
    MarkInv(l, o, Lost);
    HeldBetween(l, i);
    MarkUnder(l, o, Lost, g);
    TakeUnder(m, i, more, Lost, g);
    var t := Take(m, i, more, Lost);
    assert t.tiles[o] == m.tiles[o] && t.tiles[f].len == more;
    FuseUnder(t, o, g);
    MarkUnder(Fuse(t, o), o, Regular, g);
  }

  lemma SlideDownCovered(l: Layout, i: nat, o: nat, size: nat, h: nat)
    requires l.Inv() && Under(l, h) && Live(l, o) && JoinsBelow(l, i, o)
    requires size % 8 == 0 && size + HEADER <= l.tiles[l.free[i - 1]].len + l.tiles[o].len
    ensures Under(SlideDown(l, i, o, size), h)
  {
    hide Layout.Tiled, Layout.Listed, Under;
    UnderAt(l, o, h);
    var f, m := l.free[i - 1], Mark(l, o, Lost);
    TileAt(l, o);
    MarkInv(l, o, Lost);
    MarkUnder(l, o, Lost, h);
    HeldBetween(l, i - 1);
    TileAt(l, f);
    HeldUnder(m, i, o, h);
    PortionUnder(Fuse(Hold(m, i - 1), f), i - 1, f, size + HEADER, Regular, h);
  }

  lemma MovedCovered(s: State, p: nat, n: nat, small: bool, cfg: Config)
    requires s.Inv() && Covered(s) && LiveAt(s.l, p)
    ensures var r := Moved(s, p, n, small, cfg);
      !r.Aborted? ==> (Covered(r.s) <==> !AllocationTakesEnd(s, n, small, cfg))
  {
    hide State.Inv, Allocation, Release, AllocationTakesEnd, Covered;
    AllocationIsOk(s, n, small, cfg, true);
    AllocationCovered(s, n, small, cfg);
    assert Live(s.l, p - HEADER);
    var r := Allocation(s, n, small, cfg, true);
    if r.Block? {
      if Covered(r.s) { ReleaseCovered(r.s, p); } else { StillSticks(r, p); }
    }
  }

  lemma StillSticks(r: Outcome, p: nat)
    requires Sticks(r) && r.s.Inv() && LiveAt(r.s.l, r.p) && LiveAt(r.s.l, p) && p != r.p
    ensures !Covered(Release(r.s, p))
  {
    hide State.Inv, Release;
    ReleaseIsOk(r.s, p);
    ReleaseKeepsMark(r.s, p);
    assert Live(r.s.l, r.p - HEADER);
    assert !EndsBelow(Release(r.s, p).l, r.p - HEADER, Release(r.s, p).hwm);
  }

  lemma ReleaseKeepsMark(s: State, p: nat)
    requires s.Inv() && LiveAt(s.l, p)
    ensures Release(s, p).hwm == s.hwm
  {
    hide State.Inv, Insert;
  }

  /** Resizing the block at p to n bytes moves it to where AllocationTakesEnd(). */
  ghost predicate ReallocationTakesEnd(s: State, p: nat, n: nat, small: bool, cfg: Config)
    requires s.Inv() && LiveAt(s.l, p)
  {
    var k := s.l.tiles[p - HEADER].kind;
    if k.Small? then
      !(small && cfg.bitmaps && ClassOf(n) == ClassOf(k.size)) && AllocationTakesEnd(s, n, small, cfg)
    else !CanStay(s.l, p - HEADER, Align8(n)) && AllocationTakesEnd(s, Align8(n), small, cfg)
  }

  lemma ResizedCovered(s: State, o: nat, size: nat)
    requires s.Inv() && Covered(s) && Live(s.l, o) && s.l.tiles[o].kind.Regular? && size % 8 == 0
    requires CanStay(s.l, o, size)
    ensures Covered(Resized(s, o, size).s)
  {
    hide Layout.Tiled, Layout.Listed, Under, Shrink, ExpandUp, SlideDown, Below;
    var i := Below(s.l.free, o);
    TileIsOk(s, o);
    var more := size + HEADER - s.l.tiles[o].len;
    if more < 0 {
      ShrinkCovered(s, o, size);
    } else if more > 0 {
      if CanExpandUp(s.l, o, more) {
        ExpandUpCovered(s.l, i, o, more, s.hwm);
      } else {
        SlideDownCovered(s.l, i, o, size, s.hwm);
      }
    }
  }

  lemma ReallocationCovered(s: State, p: nat, n: nat, small: bool, cfg: Config)
    requires s.Inv() && Covered(s) && LiveAt(s.l, p)
    ensures var r := Reallocation(s, p, n, small, cfg);
      !r.Aborted? ==> (Covered(r.s) <==> !ReallocationTakesEnd(s, p, n, small, cfg))
  {
    hide Layout.Tiled, Layout.Listed, Moved, Resized, CanStay, Align8, Under, AllocationTakesEnd;
    var o := p - HEADER;
    Align8Multiple(n);
    if s.l.tiles[o].kind.Small? {
      InClassCovered(s, o, n);
      MovedCovered(s, p, n, small, cfg);
    } else if CanStay(s.l, o, Align8(n)) {
      ResizedCovered(s, o, Align8(n));
      StaysSomewhere(s, o, Align8(n));
    } else {
      MovedCovered(s, p, Align8(n), small, cfg);
    }
  }

  lemma InClassCovered(s: State, o: nat, n: nat)
    requires Covered(s) && Live(s.l, o)
    ensures Covered(s.(l := Mark(s.l, o, Small(n))))
  {
    assert EndsBelow(s.l, o, s.hwm);
    MarkUnder(s.l, o, Small(n), s.hwm);
  }

  lemma StaysSomewhere(s: State, o: nat, size: nat)
    requires s.Inv() && Live(s.l, o) && s.l.tiles[o].kind.Regular? && size % 8 == 0 && CanStay(s.l, o, size)
    ensures Resized(s, o, size).Block?
  {
  }

  // ---- The mark stays in the buffer ----

  lemma CarveMark(s: State, size: nat, kind: Kind, cfg: Config, inPlace: bool)
    requires s.Inv() && !s.failed && s.hwm <= s.l.full && size % 8 == 0
    ensures var r := Carve(s, size, kind, cfg, inPlace); !r.Aborted? ==> r.s.hwm <= r.s.l.full
    decreases Growths(s.l, size + HEADER)
  {
    hide Layout.Tiled, Layout.Listed, Doubled, Growths, Grow;
    var need := size + HEADER;
    var i := FirstFit(s.l, need, 0);
    if i < |s.l.free| {
      TakeMark(s.l, i, need, s.hwm, inPlace);
    } else if cfg.movable && Doubled(2 * s.l.full, need) <= cfg.limit {
      var newFull := Doubled(2 * s.l.full, need);
      GrowthsDecrease(s.l, need, newFull);
      if size != 0 { CarveMark(s.(l := Grow(s.l, newFull)), size, kind, cfg, true); }
    }
  }

  lemma TakeMark(l: Layout, i: nat, need: nat, hwm: nat, inPlace: bool)
    requires l.Inv() && i < |l.free| && l.free[i] in l.tiles && need <= l.tiles[l.free[i]].len && hwm <= l.full
    ensures HEADER <= l.full && TakeHwm(l, i, need, hwm, inPlace) <= l.full
  {
    TileAt(l, l.free[i]);
    if i + 1 < |l.free| {
      assert l.FreeAt(i + 1);
      TileAt(l, l.free[i + 1]);
    }
  }

  lemma AllocationMark(s: State, n: nat, small: bool, cfg: Config)
    requires s.Inv() && s.hwm <= s.l.full
    ensures var r := Allocation(s, n, small, cfg, true); !r.Aborted? ==> r.s.hwm <= r.s.l.full
  {
    hide Layout.Tiled, Layout.Listed, Carve, Align8;
    Align8Multiple(n);
    if n != 0 && !s.failed {
      CarveMark(s, Align8(n), Regular, cfg, n <= s.l.full);
      if ClassOf(n) < CLASSES { CarveMark(s, ClassSize(ClassOf(n)), Small(n), cfg, true); }
    }
  }

  lemma MovedMark(s: State, p: nat, n: nat, small: bool, cfg: Config)
    requires s.Inv() && s.hwm <= s.l.full && LiveAt(s.l, p)
    ensures var r := Moved(s, p, n, small, cfg); !r.Aborted? ==> r.s.hwm <= r.s.l.full
  {
    hide State.Inv, Allocation, Release;
    AllocationIsOk(s, n, small, cfg, true);
    AllocationMark(s, n, small, cfg);
    assert Live(s.l, p - HEADER);
    var r := Allocation(s, n, small, cfg, true);
    if r.Block? {
      ReleaseIsOk(r.s, p);
      ReleaseKeepsMark(r.s, p);
    }
  }

  lemma ResizedMark(s: State, o: nat, size: nat)
    requires s.Inv() && s.hwm <= s.l.full && Live(s.l, o) && s.l.tiles[o].kind.Regular? && size % 8 == 0
    requires CanStay(s.l, o, size)
    ensures Resized(s, o, size).s.hwm <= s.l.full
  {
    hide Layout.Tiled, Layout.Listed, Below, ExpandUp, SlideDown, Insert;
    TileAt(s.l, o);
    var i := Below(s.l.free, o);
    if i < |s.l.free| && s.l.free[i] in s.l.tiles { TileAt(s.l, s.l.free[i]); }
  }

  lemma ReallocationMark(s: State, p: nat, n: nat, small: bool, cfg: Config)
    requires s.Inv() && s.hwm <= s.l.full && LiveAt(s.l, p)
    ensures var r := Reallocation(s, p, n, small, cfg); !r.Aborted? ==> r.s.hwm <= r.s.l.full
  {
    hide Layout.Tiled, Layout.Listed, Moved, Resized, CanStay, Align8;
    var o := p - HEADER;
    Align8Multiple(n);
    ReallocationIsOk(s, p, n, small, cfg);
    if s.l.tiles[o].kind.Small? {
      MovedMark(s, p, n, small, cfg);
    } else if CanStay(s.l, o, Align8(n)) {
      ResizedMark(s, o, Align8(n));
      StaysSomewhere(s, o, Align8(n));
    } else {
      MovedMark(s, p, Align8(n), small, cfg);
    }
  }

  lemma StepMark(s: State, op: Op, cfg: Config)
    requires s.Inv() && s.hwm <= s.l.full && Legal(s, op) && Step(s, op, cfg).Some?
    ensures Step(s, op, cfg).value.hwm <= Step(s, op, cfg).value.l.full
  {
    hide State.Inv, Allocation, Reallocation, Release;
    match op
    case Get(n, small) => AllocationMark(s, n, small, cfg);
    case Put(p) => ReleaseIsOk(s, p); ReleaseKeepsMark(s, p);
    case Resize(p, n, small) => ReallocationMark(s, p, n, small, cfg);
  }

  // ---- Runs ----

  /** The operation puts a block at the buffer's very end, or 8 bytes before it, past the mark. */
  ghost predicate OpTakesEnd(s: State, op: Op, cfg: Config)
    requires s.Inv() && Legal(s, op)
  {
    match op
    case Get(n, small) => AllocationTakesEnd(s, n, small, cfg)
    case Put(p) => false
    case Resize(p, n, small) => ReallocationTakesEnd(s, p, n, small, cfg)
  }

  /** What is sent stops holding all blocks in use exactly when an operation takes the end of the buffer. */
  lemma StepCovered(s: State, op: Op, cfg: Config)
    requires s.Inv() && Covered(s) && Legal(s, op) && Step(s, op, cfg).Some?
    ensures Covered(Step(s, op, cfg).value) <==> !OpTakesEnd(s, op, cfg)
  {
    hide State.Inv, Allocation, Reallocation, Release, Covered, AllocationTakesEnd, ReallocationTakesEnd;
    match op
    case Get(n, small) => AllocationCovered(s, n, small, cfg);
    case Put(p) => ReleaseCovered(s, p);
    case Resize(p, n, small) => ReallocationCovered(s, p, n, small, cfg);
  }

  ghost predicate NeverTakesEnd(s: State, ops: seq<Op>, cfg: Config)
    requires s.Inv()
    decreases |ops|
  {
    ops == [] || !Legal(s, ops[0]) || (
      && !OpTakesEnd(s, ops[0], cfg)
      && (Step(s, ops[0], cfg).Some? ==> NeverTakesEnd(Step(s, ops[0], cfg).value, ops[1..], cfg)))
  }

  /** In any run in which none does, every block in use is among the bytes that are sent. */
  lemma {:induction false} RunCovered(s: State, ops: seq<Op>, cfg: Config)
    requires s.Inv() && Covered(s) && s.hwm <= s.l.full && NeverTakesEnd(s, ops, cfg)
    ensures Run(s, ops, cfg).Some? ==>
      Covered(Run(s, ops, cfg).value) && Run(s, ops, cfg).value.hwm <= Run(s, ops, cfg).value.l.full
    decreases |ops|
  {
    hide State.Inv, Step, Legal, Covered, OpTakesEnd;
    if ops != [] && Legal(s, ops[0]) && Step(s, ops[0], cfg).Some? {
      StepCovered(s, ops[0], cfg);
      StepMark(s, ops[0], cfg);
      RunCovered(Step(s, ops[0], cfg).value, ops[1..], cfg);
    }
  }

  /** A new buffer holds no block in use. */
  lemma FreshCovered(start: nat, full: nat)
    requires start <= full
    ensures Covered(Fresh(start, full))
  {
  }

  /** A main message that fills a buffer exactly is not sent: the mark stays where it was, before it. */
  lemma FullBufferIsCut(cfg: Config)
    ensures Fresh(40, 64).Inv()
    ensures var r := Allocation(Fresh(40, 64), 16, false, cfg, true);
      r.Block? && r.p == 48 && LiveAt(r.s.l, 48) && r.s.hwm == 40 && !Covered(r.s)
  {
    hide Layout.Tiled, Layout.Listed, FirstFit, Covered, Take;
    var s := Fresh(40, 64);
    FreshInv(40, 64);
    FreshCovered(40, 64);
    AllocationCovered(s, 16, false, cfg);
    TakeInUse(s.l, 0, 24, Regular);
    FirstIs(s.l, 24);
  }

  lemma FirstIs(l: Layout, need: nat)
    requires l.Inv() && l.free != [] && l.free[0] in l.tiles && l.tiles[l.free[0]].len >= need
    ensures FirstFit(l, need, 0) == 0
  {
  }
}
