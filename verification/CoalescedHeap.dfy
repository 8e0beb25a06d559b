/**
When free blocks touch: never in a run in which no block that is resized moves down to the free block before it.
*/
module CoalescedHeap {
  import opened Layouts
  import opened HeapSpec
  import opened HeapRuns

  /** The tile at o is free, and so is the one after it. */
  ghost predicate Touches(l: Layout, o: nat) {
    o in l.tiles && l.tiles[o].kind.Free? && l.End(o) in l.tiles && l.tiles[l.End(o)].kind.Free?
  }

  /** No two free blocks touch. */
  ghost predicate Coalesced(l: Layout) {
    forall o {:trigger Touches(l, o)} :: !Touches(l, o)
  }

  // ---- Moves ----

  lemma HoldCoalesced(l: Layout, i: nat)
    requires Coalesced(l) && i < |l.free| && l.free[i] in l.tiles
    ensures Coalesced(Hold(l, i))
  {
    forall o: nat ensures !Touches(Hold(l, i), o) { assert !Touches(l, o); }
  }

  lemma MarkCoalesced(l: Layout, o: nat, kind: Kind)
    requires Coalesced(l) && o in l.tiles && !kind.Free?
    ensures Coalesced(Mark(l, o, kind))
  {
    forall x: nat ensures !Touches(Mark(l, o, kind), x) { assert !Touches(l, x); }
  }

  lemma CutCoalesced(l: Layout, o: nat, len: nat)
    requires Coalesced(l) && o in l.tiles && len <= l.tiles[o].len
    ensures Coalesced(Cut(l, o, len))
  {
    forall x: nat ensures !Touches(Cut(l, o, len), x) { assert !Touches(l, x); }
  }

  lemma FuseCoalesced(l: Layout, o: nat)
    requires Coalesced(l) && o in l.tiles && l.End(o) in l.tiles
    ensures Coalesced(Fuse(l, o))
  {
    forall x: nat ensures !Touches(Fuse(l, o), x) { assert !Touches(l, x); }
  }

  /** No free block ends where the tile at o starts, and none starts where it ends. */
  ghost predicate Alone(l: Layout, o: nat) {
    && o in l.tiles && !(l.End(o) in l.tiles && l.tiles[l.End(o)].kind.Free?)
    && forall x: nat {:trigger x in l.tiles} :: x in l.tiles && l.tiles[x].kind.Free? ==> l.End(x) != o
  }

  lemma GiveCoalesced(l: Layout, i: nat, o: nat)
    requires Coalesced(l) && i <= |l.free| && Alone(l, o) && l.tiles[o].len > 0
    ensures Coalesced(Give(l, i, o))
  {
    forall x: nat ensures !Touches(Give(l, i, o), x) { assert !Touches(l, x); }
  }

  // ---- Operations ----

  lemma TakeCoalesced(l: Layout, i: nat, need: nat, kind: Kind)
    requires l.Inv() && Coalesced(l) && i < |l.free| && l.free[i] in l.tiles && !kind.Free?
    requires HEADER <= need <= l.tiles[l.free[i]].len
    ensures Coalesced(Take(l, i, need, kind))
  {
    var f := l.free[i];
    var h := Hold(l, i);
    HeldBetween(l, i);
    HoldCoalesced(l, i);
    assert !Touches(l, f) && l.TileOk(f);
    if l.tiles[f].len - need >= HEADER {
      var c := Cut(h, f, need);
      CutCoalesced(h, f, need);
      RestAlone(l, i, need);
      GiveCoalesced(c, i, f + need);
      MarkCoalesced(Give(c, i, f + need), f, kind);
    } else {
      MarkCoalesced(h, f, kind);
    }
  }

  lemma RestAlone(l: Layout, i: nat, need: nat)
    requires l.Inv() && Coalesced(l) && i < |l.free| && l.FreeAt(i) && HEADER <= need <= l.tiles[l.free[i]].len - HEADER
    ensures Alone(Cut(Hold(l, i), l.free[i], need), l.free[i] + need)
  {
    var f := l.free[i];
    assert !Touches(l, f) && l.TileOk(f);
    forall x: nat | x in l.tiles && x != f ensures l.End(x) != f + need {
      assert l.Apart(x, f) && l.Apart(f, x) && l.TileOk(x);
    }
  }

  /** A free block that ends where an unlisted tile starts is the one before it on the list. */
  lemma Neighbours(l: Layout, o: nat)
    requires l.Inv() && o in l.tiles && !l.tiles[o].kind.Free?
    ensures var i := Below(l.free, o);
      && (forall x: nat {:trigger x in l.tiles} ::
        x in l.tiles && l.tiles[x].kind.Free? && l.End(x) == o
        ==> JoinsBelow(l, i, o))
      && (l.End(o) in l.tiles && l.tiles[l.End(o)].kind.Free? ==> JoinsAbove(l, i, o))
  {
    var i := Below(l.free, o);
    forall x: nat | x in l.tiles && l.tiles[x].kind.Free? && l.End(x) == o ensures JoinsBelow(l, i, o) {
      assert l.TileOk(x);
      var j :| 0 <= j < |l.free| && l.free[j] == x;
      assert l.FreeAt(i - 1) && l.Apart(x, l.free[i - 1]);
    }
    if l.End(o) in l.tiles && l.tiles[l.End(o)].kind.Free? {
      var e: nat := l.End(o);
      assert l.TileOk(e) && l.TileOk(o);
      var j :| 0 <= j < |l.free| && l.free[j] == e;
      assert l.FreeAt(i) && l.Apart(o, l.free[i]);
    }
  }

  lemma InsertCoalesced(l: Layout, o: nat)
    requires l.Inv() && Coalesced(l) && o in l.tiles && l.tiles[o].kind.Lost?
    ensures Coalesced(Insert(l, o))
  {
    hide Layout.Tiled, Layout.Listed, Coalesced, Alone, Give, JoinBelow, JoinBelowShort, TakeInAbove;
    var i := Below(l.free, o);
    TileAt(l, o);
    if i == |l.free| {
      if JoinsBelow(l, i, o) {
        ShortCoalesced(l, i, o);
      } else {
        LoneGiven(l, i, o);
      }
    } else {
      if JoinsAbove(l, i, o) {
        TakeInAboveInv(l, i, o);
        TakenInCoalesced(l, i, o);
      } else {
        NoneAbove(l, o);
      }
      var up := if JoinsAbove(l, i, o) then TakeInAbove(l, i, o) else l;
      if JoinsBelow(up, i, o) { JoinedCoalesced(up, i, o); } else { NoneBelow(l, up, o); GivenCoalesced(up, i, o); }
    }
  }

  ghost predicate NoneAfter(l: Layout, o: nat) {
    o in l.tiles && !(l.End(o) in l.tiles && l.tiles[l.End(o)].kind.Free?)
  }

  ghost predicate NoneBefore(l: Layout, o: nat) {
    forall x: nat {:trigger x in l.tiles} :: x in l.tiles && l.tiles[x].kind.Free? ==> l.End(x) != o
  }

  lemma NoneAbove(l: Layout, o: nat)
    requires l.Inv() && o in l.tiles && l.tiles[o].kind.Lost? && !JoinsAbove(l, Below(l.free, o), o)
    ensures NoneAfter(l, o)
  {
    Neighbours(l, o);
  }

  /** Taking in the block above changes nothing below. */
  lemma NoneBelow(l: Layout, up: Layout, o: nat)
    requires l.Inv() && o in l.tiles && l.tiles[o].kind.Lost?
    requires var i := Below(l.free, o);
      i < |l.free| && up == (if JoinsAbove(l, i, o) then TakeInAbove(l, i, o) else l) && !JoinsBelow(up, i, o)
    ensures NoneBefore(up, o)
  {
    var i := Below(l.free, o);
    Neighbours(l, o);
    if i > 0 { assert l.FreeAt(i - 1); }
    assert JoinsBelow(l, i, o) ==> JoinsBelow(up, i, o);
  }

  lemma LoneGiven(l: Layout, i: nat, o: nat)
    requires l.Inv() && Coalesced(l) && o in l.tiles && l.tiles[o].kind.Lost? && i == Below(l.free, o) == |l.free|
    requires !JoinsBelow(l, i, o)
    ensures Coalesced(Give(l, i, o))
  {
    Neighbours(l, o);
    assert l.TileOk(o);
    GiveCoalesced(l, i, o);
  }

  lemma GivenCoalesced(l: Layout, i: nat, o: nat)
    requires l.Inv() && Coalesced(l) && i <= |l.free| && NoneAfter(l, o) && NoneBefore(l, o)
    ensures Coalesced(Give(l, i, o))
  {
    assert l.TileOk(o);
    GiveCoalesced(l, i, o);
  }

  lemma TakenInCoalesced(l: Layout, i: nat, o: nat)
    requires l.Inv() && Coalesced(l) && JoinsAbove(l, i, o) && l.tiles[o].kind.Lost?
    ensures Coalesced(TakeInAbove(l, i, o)) && NoneAfter(TakeInAbove(l, i, o), o)
  {
    assert !Touches(l, l.free[i]) && l.FreeAt(i) && l.TileOk(o) && l.TileOk(l.free[i]);
    HoldCoalesced(l, i);
    FuseCoalesced(Hold(l, i), o);
  }

  /** Free block i - 1, off the list and joined with the tile at o, has no free block before it. */
  lemma NoneBeforeJoin(l: Layout, i: nat, o: nat)
    requires l.Inv() && Coalesced(l) && JoinsBelow(l, i, o) && o in l.tiles && l.tiles[o].kind.Lost?
    ensures l.FreeAt(i - 1) && l.TileOk(l.free[i - 1]) && l.TileOk(o)
    ensures var r := Fuse(Hold(l, i - 1), l.free[i - 1]); Coalesced(r) && NoneBefore(r, l.free[i - 1])
  {
    var q := l.free[i - 1];
    assert l.FreeAt(i - 1) && l.TileOk(q) && l.TileOk(o);
    HoldCoalesced(l, i - 1);
    FuseCoalesced(Hold(l, i - 1), q);
    forall x: nat | x in l.tiles && l.tiles[x].kind.Free? ensures l.End(x) != q { assert !Touches(l, x); }
  }

  lemma JoinedCoalesced(l: Layout, i: nat, o: nat)
    requires l.Inv() && Coalesced(l) && JoinsBelow(l, i, o) && o in l.tiles && l.tiles[o].kind.Lost? && NoneAfter(l, o)
    ensures Coalesced(JoinBelow(l, i, o))
  {
    NoneBeforeJoin(l, i, o);
    hide Layout.Tiled, Layout.Listed, Coalesced;
    GiveCoalesced(Fuse(Hold(l, i - 1), l.free[i - 1]), i - 1, l.free[i - 1]);
  }

  lemma ShortCoalesced(l: Layout, i: nat, o: nat)
    requires l.Inv() && Coalesced(l) && JoinsBelow(l, i, o) && o in l.tiles && l.tiles[o].kind.Lost? && l.TileOk(o)
    ensures Coalesced(JoinBelowShort(l, i, o))
  {
    var q := l.free[i - 1];
    NoneBeforeJoin(l, i, o);
    var r := Fuse(Hold(l, i - 1), q);
    var len := l.tiles[q].len + l.tiles[o].len - HEADER;
    hide Layout.Tiled, Layout.Listed, Coalesced;
    CutCoalesced(r, q, len);
    GiveCoalesced(Cut(r, q, len), i - 1, q);
  }

  lemma GrowCoalesced(l: Layout, newFull: nat)
    requires l.Inv() && Coalesced(l) && l.full < newFull
    ensures Coalesced(Grow(l, newFull))
  {
    var k, o := |l.free|, l.full;
    var e := Extend(l, newFull);
    forall x: nat ensures !Touches(e, x) { assert !Touches(l, x); }
    if k > 0 { assert l.FreeAt(k - 1) && l.TileOk(l.free[k - 1]); }
    if JoinsBelow(e, k, o) {
      var q := l.free[k - 1];
      HoldCoalesced(e, k - 1);
      FuseCoalesced(Hold(e, k - 1), q);
      forall x: nat | x in l.tiles && l.tiles[x].kind.Free? ensures l.End(x) != q { assert !Touches(l, x); }
      forall x: nat | x in l.tiles ensures l.End(x) <= l.full { assert l.TileOk(x); }
      GiveCoalesced(Fuse(Hold(e, k - 1), q), k - 1, q);
    } else {
      LastEnds(l);
      GiveCoalesced(e, k, o);
    }
  }

  /** Only the last free block can end the buffer. */
  lemma LastEnds(l: Layout)
    requires l.Inv()
    ensures forall x: nat {:trigger x in l.tiles} ::
      x in l.tiles && l.tiles[x].kind.Free? && l.End(x) == l.full ==> JoinsBelow(l, |l.free|, l.full)
    ensures forall x: nat {:trigger x in l.tiles} :: x in l.tiles ==> l.End(x) <= l.full && x < l.full
  {
    forall x: nat | x in l.tiles ensures l.End(x) <= l.full && x < l.full { assert l.TileOk(x); }
    forall x: nat | x in l.tiles && l.tiles[x].kind.Free? && l.End(x) == l.full
      ensures JoinsBelow(l, |l.free|, l.full) {
      assert l.TileOk(x);
      var j :| 0 <= j < |l.free| && l.free[j] == x;
      var k := |l.free| - 1;
      assert l.FreeAt(k) && l.Apart(x, l.free[k]) && l.TileOk(l.free[k]);
    }
  }

  lemma CarveCoalesced(s: State, size: nat, kind: Kind, cfg: Config, inPlace: bool)
    requires s.Inv() && !s.failed && Coalesced(s.l) && !kind.Free?
    ensures !Carve(s, size, kind, cfg, inPlace).Aborted? ==> Coalesced(Carve(s, size, kind, cfg, inPlace).s.l)
    decreases Growths(s.l, size + HEADER)
  {
    hide Layout.Tiled, Layout.Listed, Doubled, Growths, Take, Grow, Coalesced;
    var need := size + HEADER;
    var i := FirstFit(s.l, need, 0);
    if i < |s.l.free| {
      TakeCoalesced(s.l, i, need, kind);
    } else if !cfg.movable {
      DropCoalesced(s.l);
    } else if Doubled(2 * s.l.full, need) <= cfg.limit {
      var newFull := Doubled(2 * s.l.full, need);
      GrowthsDecrease(s.l, need, newFull);
      GrowCoalesced(s.l, newFull);
      if size != 0 { CarveCoalesced(s.(l := Grow(s.l, newFull)), size, kind, cfg, true); }
    }
  }

  lemma DropCoalesced(l: Layout)
    ensures Coalesced(DropLists(l))
  {
  }

  lemma AllocationCoalesced(s: State, n: nat, small: bool, cfg: Config)
    requires s.Inv() && Coalesced(s.l)
    ensures !Allocation(s, n, small, cfg, true).Aborted? ==> Coalesced(Allocation(s, n, small, cfg, true).s.l)
  {
    hide Layout.Tiled, Align8, Carve;
    if n != 0 && !s.failed {
      CarveCoalesced(s, Align8(n), Regular, cfg, n <= s.l.full);
      if small && cfg.bitmaps && ClassOf(n) < CLASSES {
        var c := ClassOf(n);
        CarveCoalesced(s, ClassSize(c), Small(n), cfg, true);
        if |s.l.idle[c]| > 0 { PopCoalesced(s.l, c, n); }
      }
    }
  }

  lemma PopCoalesced(l: Layout, c: nat, n: nat)
    requires Coalesced(l) && l.IdleAt(c, 0) && c < CLASSES && |l.idle[c]| > 0
    ensures Coalesced(Mark(PopIdle(l, c), l.idle[c][0] - HEADER, Small(n)))
  {
    var r := Mark(PopIdle(l, c), l.idle[c][0] - HEADER, Small(n));
    forall x: nat ensures !Touches(r, x) { assert !Touches(l, x); }
  }

  lemma ReleaseCoalesced(s: State, p: nat)
    requires s.Inv() && Coalesced(s.l) && LiveAt(s.l, p)
    ensures Coalesced(Release(s, p).l)
  {
    var o := p - HEADER;
    MarkInv(s.l, o, Lost);
    MarkCoalesced(s.l, o, Lost);
    var r := Release(s, p).l;
    if !s.failed && s.l.tiles[o].kind.Regular? {
      InsertCoalesced(Mark(s.l, o, Lost), o);
    } else {
      forall x: nat ensures !Touches(r, x) { assert !Touches(s.l, x); }
    }
  }

  lemma ShrinkCoalesced(s: State, o: nat, size: nat)
    requires s.Inv() && Coalesced(s.l) && Live(s.l, o) && s.l.tiles[o].kind.Regular?
    requires size % 8 == 0 && size + 2 * HEADER <= s.l.tiles[o].len
    ensures Coalesced(Shrink(s, o, size).l)
  {
    MarkInv(s.l, o, Lost);
    CutInv(Mark(s.l, o, Lost), o, size + HEADER);
    MarkInv(Cut(Mark(s.l, o, Lost), o, size + HEADER), o, Regular);
    hide Layout.Tiled, Layout.Listed, Insert, Coalesced;
    MarkCoalesced(s.l, o, Lost);
    CutCoalesced(Mark(s.l, o, Lost), o, size + HEADER);
    MarkCoalesced(Cut(Mark(s.l, o, Lost), o, size + HEADER), o, Regular);
    InsertCoalesced(Mark(Cut(Mark(s.l, o, Lost), o, size + HEADER), o, Regular), o + HEADER + size);
  }

  lemma ExpandUpCoalesced(l: Layout, i: nat, o: nat, more: nat)
    requires l.Inv() && Coalesced(l) && Live(l, o) && l.tiles[o].kind.Regular? && JoinsAbove(l, i, o)
    requires HEADER <= more && more % 8 == 0 && more + HEADER <= l.tiles[l.free[i]].len
    ensures Coalesced(ExpandUp(l, i, o, more))
  {
    hide Layout.Tiled, Layout.Listed, Coalesced;
    MarkInv(l, o, Lost);
    MarkCoalesced(l, o, Lost);
    var m, f := Mark(l, o, Lost), l.free[i];
    HeldBetween(l, i);
    TakeCoalesced(m, i, more, Lost);
    var g := Portion(Hold(m, i), i, f, more, Lost);
    assert g == Take(m, i, more, Lost);
    FuseCoalesced(g, o);
    MarkCoalesced(Fuse(g, o), o, Regular);
  }

  /** What a block that moves down leaves free touches the free block above, if there is one there. */
  lemma SlideDownTouches(l: Layout, i: nat, o: nat, size: nat)
    requires l.Inv() && Coalesced(l) && Live(l, o) && JoinsBelow(l, i, o)
    requires size % 8 == 0 && l.tiles[o].len < size + HEADER <= l.tiles[l.free[i - 1]].len + l.tiles[o].len
    ensures Coalesced(SlideDown(l, i, o, size))
      <==> size + HEADER == l.tiles[l.free[i - 1]].len + l.tiles[o].len || NoneAfter(l, o)
  {
    hide Layout.Tiled, Layout.Listed, Coalesced, NoneAfter, NoneBefore, Alone;
    var f := l.free[i - 1];
    var m := Mark(l, o, Lost);
    MarkInv(l, o, Lost);
    MarkCoalesced(l, o, Lost);
    NoneBeforeJoin(m, i, o);
    HeldBetween(m, i - 1);
    FuseInv(Hold(m, i - 1), f);
    var g := Fuse(Hold(m, i - 1), f);
    TileAt(g, f);
    TileAt(l, o);
    TileAt(l, f);
    if size + HEADER == g.tiles[f].len {
      MarkCoalesced(g, f, Regular);
      assert SlideDown(l, i, o, size) == Mark(g, f, Regular);
    } else {
      CutCoalesced(g, f, size + HEADER);
      CutInv(g, f, size + HEADER);
      SlideRest(l, i, o, size);
    }
  }

  lemma SlideRest(l: Layout, i: nat, o: nat, size: nat)
    requires l.Inv() && Live(l, o) && JoinsBelow(l, i, o) && l.FreeAt(i - 1)
    requires size % 8 == 0 && l.tiles[o].len < size + HEADER <= l.tiles[l.free[i - 1]].len + l.tiles[o].len - HEADER
    requires var f := l.free[i - 1]; var c := Cut(Fuse(Hold(Mark(l, o, Lost), i - 1), f), f, size + HEADER);
      f < o && c.Inv() && Coalesced(c)
    ensures Coalesced(SlideDown(l, i, o, size)) <==> NoneAfter(l, o)
  {
    var f := l.free[i - 1];
    var c := Cut(Fuse(Hold(Mark(l, o, Lost), i - 1), f), f, size + HEADER);
    var rest := f + size + HEADER;
    var r := Give(c, i - 1, rest);
    assert SlideDown(l, i, o, size) == Mark(r, f, Regular);
    RestOfSlide(c, f, rest);
    assert c.TileOk(rest);
    assert c.End(rest) == l.End(o) && (NoneAfter(l, o) <==> NoneAfter(c, rest));
    hide Layout.Tiled, Layout.Listed;
    if NoneAfter(l, o) {
      GiveCoalesced(c, i - 1, rest);
      MarkCoalesced(r, f, Regular);
    } else {
      assert Touches(SlideDown(l, i, o, size), rest);
    }
  }

  lemma RestOfSlide(c: Layout, f: nat, rest: nat)
    requires c.Inv() && f in c.tiles && c.tiles[f].kind.Lost? && c.End(f) == rest
    ensures NoneBefore(c, rest)
  {
    forall x: nat | x in c.tiles && c.tiles[x].kind.Free? ensures c.End(x) != rest {
      assert c.Apart(x, f) && c.Apart(f, x) && c.TileOk(x) && c.TileOk(f);
    }
  }

  // ---- Runs ----

  /** Resizing the block at p to n bytes moves it down to the free block before it, leaving a rest next to one above. */
  ghost predicate LeavesTouching(s: State, p: nat, n: nat)
    requires s.Inv() && LiveAt(s.l, p)
  {
    var o := p - HEADER;
    var size := Align8(n);
    var i := Below(s.l.free, o);
    && s.l.tiles[o].kind.Regular? && s.l.tiles[o].len < size + HEADER
    && !CanExpandUp(s.l, o, size + HEADER - s.l.tiles[o].len) && CanSlideDown(s.l, o, size + HEADER - s.l.tiles[o].len)
    && size + HEADER < s.l.tiles[s.l.free[i - 1]].len + s.l.tiles[o].len && !NoneAfter(s.l, o)
  }

  lemma MovedCoalesced(s: State, p: nat, n: nat, small: bool, cfg: Config)
    requires s.Inv() && Coalesced(s.l) && LiveAt(s.l, p)
    ensures !Moved(s, p, n, small, cfg).Aborted? ==> Coalesced(Moved(s, p, n, small, cfg).s.l)
  {
    hide State.Inv, Allocation, Release, Coalesced;
    AllocationIsOk(s, n, small, cfg, true);
    AllocationCoalesced(s, n, small, cfg);
    assert Live(s.l, p - HEADER);
    var r := Allocation(s, n, small, cfg, true);
    if r.Block? { ReleaseCoalesced(r.s, p); }
  }

  lemma ResizedCoalesced(s: State, p: nat, n: nat)
    requires s.Inv() && Coalesced(s.l) && LiveAt(s.l, p) && s.l.tiles[p - HEADER].kind.Regular?
    requires Align8(n) % 8 == 0 && CanStay(s.l, p - HEADER, Align8(n))
    ensures Resized(s, p - HEADER, Align8(n)).Block?
    ensures Coalesced(Resized(s, p - HEADER, Align8(n)).s.l) <==> !LeavesTouching(s, p, n)
  {
    hide Layout.Tiled, Layout.Listed, Coalesced, Shrink, ExpandUp, SlideDown, NoneAfter, Align8, Below;
    var o, size := p - HEADER, Align8(n);
    var i := Below(s.l.free, o);
    TileIsOk(s, o);
    var more := size + HEADER - s.l.tiles[o].len;
    if more < 0 {
      ShrinkCoalesced(s, o, size);
    } else if more > 0 {
      if CanExpandUp(s.l, o, more) { ExpandUpCoalesced(s.l, i, o, more); } else { SlideDownTouches(s.l, i, o, size); }
    }
  }

  lemma ReallocationCoalesced(s: State, p: nat, n: nat, small: bool, cfg: Config)
    requires s.Inv() && Coalesced(s.l) && LiveAt(s.l, p)
    ensures !Reallocation(s, p, n, small, cfg).Aborted? ==>
      (Coalesced(Reallocation(s, p, n, small, cfg).s.l) <==> !LeavesTouching(s, p, n))
  {
    hide Layout.Tiled, Layout.Listed, Moved, Resized, CanExpandUp, CanSlideDown, Align8, Coalesced;
    var o := p - HEADER;
    Align8Multiple(n);
    if s.l.tiles[o].kind.Small? {
      MarkCoalesced(s.l, o, Small(n));
      MovedCoalesced(s, p, n, small, cfg);
    } else if CanStay(s.l, o, Align8(n)) {
      ResizedCoalesced(s, p, n);
    } else {
      MovedCoalesced(s, p, Align8(n), small, cfg);
    }
  }

  /** No resize of the run leaves two free blocks touching. */
  ghost predicate NeverLeavesTouching(s: State, ops: seq<Op>, cfg: Config)
    requires s.Inv()
    decreases |ops|
  {
    ops == [] || !Legal(s, ops[0]) || (
      && (ops[0].Resize? ==> !LeavesTouching(s, ops[0].p, ops[0].n))
      && (Step(s, ops[0], cfg).Some? ==> NeverLeavesTouching(Step(s, ops[0], cfg).value, ops[1..], cfg)))
  }

  /** An operation leaves free blocks touching where none did exactly if it moves a block down below a free one. */
  lemma StepCoalesced(s: State, op: Op, cfg: Config)
    requires s.Inv() && Coalesced(s.l) && Legal(s, op) && Step(s, op, cfg).Some?
    ensures Coalesced(Step(s, op, cfg).value.l) <==> !(op.Resize? && LeavesTouching(s, op.p, op.n))
  {
    hide State.Inv, Allocation, Reallocation, Release, Coalesced, LeavesTouching;
    match op
    case Get(n, small) => AllocationCoalesced(s, n, small, cfg);
    case Put(p) => ReleaseCoalesced(s, p);
    case Resize(p, n, small) => ReallocationCoalesced(s, p, n, small, cfg);
  }

  /** In a run without such a resize no two free blocks ever touch. */
  lemma {:induction false} RunCoalesced(s: State, ops: seq<Op>, cfg: Config)
    requires s.Inv() && Coalesced(s.l) && NeverLeavesTouching(s, ops, cfg)
    ensures Run(s, ops, cfg).Some? ==> Coalesced(Run(s, ops, cfg).value.l)
    decreases |ops|
  {
    hide State.Inv, Step, Legal, Coalesced, LeavesTouching;
    if ops != [] && Legal(s, ops[0]) && Step(s, ops[0], cfg).Some? {
      StepCoalesced(s, ops[0], cfg);
      RunCoalesced(Step(s, ops[0], cfg).value, ops[1..], cfg);
    }
  }

  /** A buffer of four blocks, the first and the last of them free. */
  function FourBlocks(): State {
    State(Layout(40, 168,
        map[40 := Tile(48, Free), 88 := Tile(24, Regular), 112 := Tile(24, Free), 136 := Tile(32, Regular)],
      [40, 112], [[], [], [], []]), 144, false)
  }

  /** Growing the block at 96 by 16 bytes moves it down and leaves 32 free bytes before the 24 that already were. */
  lemma ResizingCanLeaveTouching(cfg: Config)
    ensures FourBlocks().Inv() && Coalesced(FourBlocks().l) && LiveAt(FourBlocks().l, 96)
        && LeavesTouching(FourBlocks(), 96, 32)
    ensures Reallocation(FourBlocks(), 96, 32, false, cfg).Block?
        && !Coalesced(Reallocation(FourBlocks(), 96, 32, false, cfg).s.l)
  {
    var s := FourBlocks();
    FourBlocksInv();
    hide Layout.Tiled, Layout.Listed, Reallocation;
    BelowUnique(s.l.free, 88, 1);
    ReallocationCoalesced(s, 96, 32, false, cfg);
    ResizesInPlace(s, 96, 32, false, cfg);
  }

  lemma ResizesInPlace(s: State, p: nat, n: nat, small: bool, cfg: Config)
    requires s.Inv() && LiveAt(s.l, p) && s.l.tiles[p - HEADER].kind.Regular? && CanStay(s.l, p - HEADER, Align8(n))
    ensures Reallocation(s, p, n, small, cfg).Block?
  {
    hide State.Inv, CanExpandUp, CanSlideDown, Align8;
  }

  lemma FourBlocksInv()
    ensures FourBlocks().Inv()
  {
    var l := FourBlocks().l;
    assert l.free[0] == 40 && l.free[1] == 112;
    assert l.TileOk(40) && l.TileOk(88) && l.TileOk(112) && l.TileOk(136);
  }
}
