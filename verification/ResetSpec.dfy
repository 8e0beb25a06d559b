/**
Resetting a buffer to its mark: why the blocks below the mark are still as they were after a run, and why
a buffer whose free list and high-water mark are back where they started holds nothing past the mark.
*/
module ResetSpec {
  import opened Layouts
  import opened HeapSpec
  import opened HeapRuns

  ghost predicate NoIdle(l: Layout) {
    |l.idle| == CLASSES && forall c :: 0 <= c < CLASSES ==> l.idle[c] == []
  }

  /** A new buffer: nothing on the class lists, and one free block, from the mark to the end. */
  ghost predicate Marked(s: State, mark: nat) {
    && s.Inv() && !s.failed
    && NoIdle(s.l) && s.l.free == [mark] && mark in s.l.tiles && s.l.End(mark) == s.l.full
    && s.hwm == mark + HEADER
  }

  /** The layout with every tile from the mark on replaced by one free block. */
  ghost function ResetLayout(l: Layout, mark: nat): Layout
    requires mark <= l.full
  {
    l.(free := [mark], idle := [[], [], [], []],
      tiles := (map o | o in l.tiles && o < mark ::
          if Unlisted(l.tiles[o].kind) then l.tiles[o] else l.tiles[o].(kind := Lost))
        [mark := Tile(l.full - mark, Free)])
  }

  lemma ResetInv(l: Layout, mark: nat)
    requires l.Inv() && mark in l.tiles && mark + HEADER <= l.full
    ensures ResetLayout(l, mark).Inv()
  {
    ResetTiled(l, mark);
    hide Layout.Tiled, Layout.Apart, Layout.TileOk;
    var r := ResetLayout(l, mark);
    forall i: nat ensures r.FreeAt(i) { }
  }

  lemma ResetTiled(l: Layout, mark: nat)
    requires l.Inv() && mark in l.tiles && mark + HEADER <= l.full
    ensures ResetLayout(l, mark).Tiled()
  {
    hide Layout.Listed;
    var r := ResetLayout(l, mark);
    assert l.TileOk(mark);
    assert r.free[0] == mark;
    forall o | o in r.tiles ensures r.TileOk(o) {
      assert l.TileOk(o) && l.Apart(o, mark);
    }
    forall a, b ensures r.Apart(a, b) { assert l.Apart(a, b); }
  }

  /** After a reset the buffer is marked again. */
  lemma ResetIsMarked(l: Layout, mark: nat)
    requires l.Inv() && mark in l.tiles && mark + HEADER <= l.full && 0 < l.start
    ensures Marked(State(ResetLayout(l, mark), mark + HEADER, false), mark)
  {
    ResetInv(l, mark);
    assert l.TileOk(mark);
  }

  // ---- What a run since the mark leaves alone ----

  /** Nothing below the mark is on a list. */
  ghost predicate Quiet(l: Layout, mark: nat) {
    mark in l.tiles && forall o :: o < mark && o in l.tiles ==> Unlisted(l.tiles[o].kind)
  }

  /** The two layouts have the same tiles below the mark, and in both one starts at the mark. */
  ghost predicate Fixed(l: Layout, r: Layout, mark: nat) {
    && r.start == l.start && r.full >= l.full && mark in l.tiles && mark in r.tiles
    && (forall o :: o < mark ==> (o in l.tiles <==> o in r.tiles) && (o in l.tiles ==> r.tiles[o] == l.tiles[o]))
  }

  lemma FixedTrans(l: Layout, m: Layout, r: Layout, mark: nat)
    requires Fixed(l, m, mark) && Fixed(m, r, mark)
    ensures Fixed(l, r, mark)
  {
  }

  lemma QuietFixed(l: Layout, r: Layout, mark: nat)
    requires Quiet(l, mark) && Fixed(l, r, mark)
    ensures Quiet(r, mark)
  {
  }

  lemma TakeFixed(l: Layout, i: nat, need: nat, kind: Kind, mark: nat)
    requires l.Inv() && Quiet(l, mark) && i < |l.free| && l.free[i] in l.tiles
    requires HEADER <= need <= l.tiles[l.free[i]].len
    ensures Fixed(l, Take(l, i, need, kind), mark)
  {
    assert l.FreeAt(i);
  }

  lemma GrowFixed(l: Layout, newFull: nat, mark: nat)
    requires l.Inv() && Quiet(l, mark) && l.full < newFull
    ensures Fixed(l, Grow(l, newFull), mark)
  {
    assert l.TileOk(mark);
    if |l.free| > 0 { assert l.FreeAt(|l.free| - 1) && l.TileOk(l.free[|l.free| - 1]); }
  }

  lemma DropFixed(l: Layout, mark: nat)
    requires Quiet(l, mark)
    ensures Fixed(l, DropLists(l), mark)
  {
  }

  lemma InsertFixed(l: Layout, o: nat, mark: nat)
    requires l.Inv() && Quiet(l, mark) && o in l.tiles && l.tiles[o].kind.Lost? && o >= mark
    ensures Fixed(l, Insert(l, o), mark)
  {
    hide Layout.Tiled, Layout.Listed, Give, JoinBelow, JoinBelowShort, TakeInAbove, Fixed;
    var i := Below(l.free, o);
    if i == |l.free| {
      if JoinsBelow(l, i, o) { JoinFixed(l, i, o, mark); } else { GiveFixed(l, i, o, mark); }
    } else {
      FixedNow(l, mark);
      if JoinsAbove(l, i, o) { TakeInAboveInv(l, i, o); TakeInFixed(l, i, o, mark); }
      var up := if JoinsAbove(l, i, o) then TakeInAbove(l, i, o) else l;
      QuietFixed(l, up, mark);
      if JoinsBelow(up, i, o) { JoinFixed(up, i, o, mark); } else { GiveFixed(up, i, o, mark); }
      FixedTrans(l, up, Insert(l, o), mark);
    }
  }

  lemma FixedNow(l: Layout, mark: nat)
    requires Quiet(l, mark)
    ensures Fixed(l, l, mark)
  {
  }

  lemma GiveFixed(l: Layout, i: nat, o: nat, mark: nat)
    requires Quiet(l, mark) && i <= |l.free| && o in l.tiles && o >= mark
    ensures Fixed(l, Give(l, i, o), mark)
  {
  }

  lemma TakeInFixed(l: Layout, i: nat, o: nat, mark: nat)
    requires l.Inv() && Quiet(l, mark) && JoinsAbove(l, i, o) && o >= mark
    ensures Fixed(l, TakeInAbove(l, i, o), mark)
  {
    assert l.TileOk(o);
  }

  lemma JoinFixed(l: Layout, i: nat, o: nat, mark: nat)
    requires l.Inv() && Quiet(l, mark) && JoinsBelow(l, i, o) && o in l.tiles && o >= mark
    ensures Fixed(l, JoinBelow(l, i, o), mark)
    ensures l.TileOk(o) && Fixed(l, JoinBelowShort(l, i, o), mark)
  {
    assert l.TileOk(o) && l.FreeAt(i - 1) && l.TileOk(l.free[i - 1]);
  }

  // ---- The last free block and the high-water mark ----

  function Last(free: seq<nat>): nat
    requires free != []
  {
    free[|free| - 1]
  }

  /** More than a header of the buffer's end is free. */
  ghost predicate TailFree(l: Layout) {
    l.free != [] && Last(l.free) in l.tiles && l.End(Last(l.free)) == l.full && l.tiles[Last(l.free)].len > HEADER
  }

  /** The high-water mark is past the last free block's header, or is its offset when a block was taken below it. */
  ghost predicate Raised(free: seq<nat>, hwm: nat, mark: nat) {
    free != [] && (hwm >= Last(free) + HEADER || (hwm >= Last(free) && Last(free) >= mark + 2 * HEADER))
  }

  lemma TakeRaises(l: Layout, i: nat, need: nat, kind: Kind, hwm: nat, inPlace: bool, mark: nat)
    requires l.Inv() && i < |l.free| && l.free[i] in l.tiles && HEADER <= need <= l.tiles[l.free[i]].len
    requires need % 8 == 0
    requires TailFree(l) && Raised(l.free, hwm, mark) && TailFree(Take(l, i, need, kind))
    ensures Raised(Take(l, i, need, kind).free, TakeHwm(l, i, need, hwm, inPlace), mark)
  {
    hide Layout.Tiled, Layout.Listed;
    TakenTail(l, i);
    if i == |l.free| - 1 { LastTaken(l, i, need, kind); } else { AboveTaken(l, i, need, kind); }
  }

  /** Taking from the last free block leaves a new one, which the mark is raised past. */
  lemma LastTaken(l: Layout, i: nat, need: nat, kind: Kind)
    requires l.Inv() && i == |l.free| - 1 && l.FreeAt(i) && HEADER <= need <= l.tiles[l.free[i]].len && need % 8 == 0
    requires i > 0 ==> l.FreeAt(i - 1) && l.End(l.free[i - 1]) <= l.free[i]
    requires l.TileOk(l.free[i]) && TailFree(l) && TailFree(Take(l, i, need, kind))
    ensures l.tiles[l.free[i]].len - need > HEADER && Last(Take(l, i, need, kind).free) == l.free[i] + need
  {
    hide Layout.Tiled, Layout.Listed;
    var f := l.free[i];
    if l.tiles[f].len - need >= HEADER {
      assert Take(l, i, need, kind).free == l.free[..i] + [f + need];
    }
  }

  lemma AboveTaken(l: Layout, i: nat, need: nat, kind: Kind)
    requires l.Inv() && i < |l.free| - 1 && l.free[i] in l.tiles && need <= l.tiles[l.free[i]].len
    ensures var r := Take(l, i, need, kind); r.free != [] && Last(r.free) == Last(l.free)
  {
    hide Layout.Tiled, Layout.Listed;
    assert Last(l.free[i + 1..]) == Last(l.free);
  }

  /** Free block i's size, and where the blocks before it on the list end. */
  lemma TakenTail(l: Layout, i: nat)
    requires l.Inv() && i < |l.free|
    ensures l.FreeAt(i) && l.TileOk(l.free[i])
    ensures i > 0 ==> l.FreeAt(i - 1) && l.End(l.free[i - 1]) <= l.free[i]
  {
    assert l.FreeAt(i);
    if i > 0 { assert l.FreeAt(i - 1) && l.Apart(l.free[i - 1], l.free[i]); }
  }

  lemma GrowTail(l: Layout, newFull: nat)
    requires l.Inv() && l.full + HEADER <= newFull && newFull % 8 == 0 && TailFree(l)
    ensures Grow(l, newFull).free == l.free && TailFree(Grow(l, newFull))
  {
    GrowInv(l, newFull);
    assert l.FreeAt(|l.free| - 1) && l.TileOk(Last(l.free));
    var e := Extend(l, newFull);
    assert JoinsBelow(e, |l.free|, l.full);
  }

  lemma InsertTail(l: Layout, o: nat)
    requires l.Inv() && o in l.tiles && l.tiles[o].kind.Lost? && TailFree(l)
    ensures TailFree(Insert(l, o))
    ensures Last(Insert(l, o).free) == Last(l.free) || Last(Insert(l, o).free) + HEADER <= Last(l.free)
  {
    hide Layout.Tiled, Layout.Listed;
    var i := Below(l.free, o);
    InsertedBelow(l, o);
    if i + 1 == |l.free| && JoinsAbove(l, i, o) {
      InsertedAtTail(l, o, i);
    } else {
      InsertSame(l, o);
      InsertedInside(l, o, i);
    }
  }

  /** The last free block is the tile t at x. */
  ghost predicate LastIs(l: Layout, x: nat, t: Tile) {
    l.free != [] && Last(l.free) == x && x in l.tiles && l.tiles[x] == t
  }

  lemma GiveKeepsLast(l: Layout, i: nat, o: nat, x: nat, t: Tile)
    requires LastIs(l, x, t) && i < |l.free| && o in l.tiles && o != x
    ensures LastIs(Give(l, i, o), x, t)
  {
  }

  lemma JoinKeepsLast(l: Layout, i: nat, o: nat, x: nat, t: Tile)
    requires LastIs(l, x, t) && i < |l.free| && JoinsBelow(l, i, o) && o in l.tiles && o < x && l.free[i - 1] < x
    ensures LastIs(JoinBelow(l, i, o), x, t)
  {
    assert Last(Hold(l, i - 1).free) == x;
  }

  lemma TakeInKeepsLast(l: Layout, i: nat, o: nat, x: nat, t: Tile)
    requires LastIs(l, x, t) && i < |l.free| - 1 && JoinsAbove(l, i, o) && o < x && l.free[i] < x
    ensures LastIs(TakeInAbove(l, i, o), x, t)
  {
  }

  lemma TailIs(l: Layout, r: Layout)
    requires TailFree(l)
    ensures l.free != [] && Last(l.free) in l.tiles && LastIs(l, Last(l.free), l.tiles[Last(l.free)])
    ensures LastIs(r, Last(l.free), l.tiles[Last(l.free)]) && r.full == l.full ==> TailFree(r)
    ensures LastIs(r, Last(l.free), l.tiles[Last(l.free)]) && r.full == l.full ==> Last(r.free) == Last(l.free)
  {
  }

  /** With the last free block not next to the freed one, it stays as it is. */
  lemma InsertedInside(l: Layout, o: nat, i: nat)
    requires l.Inv() && o in l.tiles && l.tiles[o].kind.Lost? && TailFree(l) && i == Below(l.free, o) < |l.free|
    requires i + 1 < |l.free| ==> l.free[i] < Last(l.free)
    requires i + 1 == |l.free| ==> !JoinsAbove(l, i, o)
    requires o < Last(l.free) && (i > 0 ==> l.free[i - 1] < Last(l.free)) && Insert(l, o).full == l.full
    ensures TailFree(Insert(l, o)) && Last(Insert(l, o).free) == Last(l.free)
  {
    hide Layout.Tiled, Layout.Listed, LastIs, Give, JoinBelow, TakeInAbove, TailFree;
    TailIs(l, Insert(l, o));
    var x := Last(l.free);
    var t := l.tiles[x];
    var up := if JoinsAbove(l, i, o) then TakeInAbove(l, i, o) else l;
    if JoinsAbove(l, i, o) { TakeInKeepsLast(l, i, o, x, t); TakenInFree(l, i, o); }
    if JoinsBelow(up, i, o) { JoinKeepsLast(up, i, o, x, t); } else { GiveKeepsLast(up, i, o, x, t); }
  }

  lemma TakenInFree(l: Layout, i: nat, o: nat)
    requires JoinsAbove(l, i, o) && l.free != []
    ensures var r := TakeInAbove(l, i, o);
        |r.free| == |l.free| - 1 && (i > 0 ==> r.free[i - 1] == l.free[i - 1])
        && o in r.tiles
  {
  }

  lemma InsertedAtTail(l: Layout, o: nat, i: nat)
    requires l.Inv() && o in l.tiles && l.tiles[o].kind.Lost? && TailFree(l) && i == Below(l.free, o) == |l.free| - 1
    requires l.TileOk(o) && JoinsAbove(l, i, o)
    requires i > 0 ==> l.FreeAt(i - 1) && l.End(l.free[i - 1]) <= o && l.TileOk(l.free[i - 1])
    ensures TailFree(Insert(l, o)) && Last(Insert(l, o).free) + HEADER <= Last(l.free)
  {
    hide Layout.Tiled, Layout.Listed;
    var up := TakeInAbove(l, i, o);
    assert up.free == l.free[..i];
    assert up.tiles[o].len > HEADER && up.End(o) == l.full;
  }

  /** A block freed below the last free block. */
  lemma InsertedBelow(l: Layout, o: nat)
    requires l.Inv() && o in l.tiles && l.tiles[o].kind.Lost? && TailFree(l)
    ensures var i := Below(l.free, o);
      && i < |l.free| && l.TileOk(o) && l.End(o) <= l.free[i]
      && (i > 0 ==> l.FreeAt(i - 1) && l.End(l.free[i - 1]) <= o && l.TileOk(l.free[i - 1]))
      && (i + 1 < |l.free| ==> l.FreeAt(i) && l.End(l.free[i]) <= Last(l.free))
  {
    var k := |l.free| - 1;
    var i := Below(l.free, o);
    assert l.TileOk(o) && l.FreeAt(k) && l.Apart(l.free[k], o);
    assert l.FreeAt(i) && l.Apart(o, l.free[i]) && l.Apart(l.free[i], l.free[k]);
    if i > 0 { assert l.FreeAt(i - 1) && l.Apart(l.free[i - 1], o) && l.TileOk(l.free[i - 1]); }
  }

  lemma ExpandUpRaises(l: Layout, i: nat, o: nat, more: nat, hwm: nat, mark: nat)
    requires l.Inv() && Live(l, o) && JoinsAbove(l, i, o) && mark <= o
    requires 0 < more && more % 8 == 0 && more + HEADER < l.tiles[l.free[i]].len
    requires TailFree(l) && Raised(l.free, hwm, mark)
    ensures Raised(ExpandUp(l, i, o, more).free, Max(hwm, l.free[i] + more), mark)
  {
    assert l.TileOk(o) && l.TileOk(l.free[i]);
    assert ExpandUp(l, i, o, more).free == l.free[..i] + [l.free[i] + more] + l.free[i + 1..];
  }

  lemma SlideDownRaises(l: Layout, i: nat, o: nat, size: nat, hwm: nat, mark: nat)
    requires l.Inv() && Live(l, o) && JoinsBelow(l, i, o) && i < |l.free|
    requires size + HEADER <= l.tiles[l.free[i - 1]].len + l.tiles[o].len
    requires Raised(l.free, hwm, mark)
    ensures Raised(SlideDown(l, i, o, size).free, hwm, mark)
  {
    assert Last(l.free[i..]) == Last(l.free);
  }

  // ---- The other moves, below the mark ----

  lemma ExpandUpFixed(l: Layout, i: nat, o: nat, more: nat, mark: nat)
    requires l.Inv() && Quiet(l, mark) && Live(l, o) && JoinsAbove(l, i, o) && mark <= o
    requires 0 < more <= l.tiles[l.free[i]].len
    ensures Fixed(l, ExpandUp(l, i, o, more), mark)
  {
    assert l.TileOk(o) && l.FreeAt(i);
  }

  lemma SlideDownFixed(l: Layout, i: nat, o: nat, size: nat, mark: nat)
    requires l.Inv() && Quiet(l, mark) && Live(l, o) && JoinsBelow(l, i, o) && mark <= o
    requires size + HEADER <= l.tiles[l.free[i - 1]].len + l.tiles[o].len
    ensures Fixed(l, SlideDown(l, i, o, size), mark)
  {
    assert l.TileOk(o) && l.FreeAt(i - 1) && l.TileOk(l.free[i - 1]);
  }

  // ---- Runs since the mark ----

  /** A state reached from one that was marked with the tiles l0 below the mark. */
  ghost predicate Since(l0: Layout, tail: bool, s: State, mark: nat) {
    && s.Inv() && Quiet(l0, mark) && Fixed(l0, s.l, mark)
    && (tail && !s.failed ==> TailFree(s.l) && Raised(s.l.free, s.hwm, mark))
  }

  ghost predicate SinceIf(l0: Layout, tail: bool, t: State, mark: nat) {
    (tail && !t.failed ==> TailFree(t.l)) ==> Since(l0, tail, t, mark)
  }

  ghost predicate Leads(l0: Layout, tail: bool, r: Outcome, mark: nat) {
    r.Aborted? || SinceIf(l0, tail, r.s, mark)
  }

  lemma MarkedSince(s: State, tail: bool, mark: nat)
    requires Marked(s, mark) && Quiet(s.l, mark) && (tail ==> s.l.tiles[mark].len > HEADER)
    ensures Since(s.l, tail, s, mark)
  {
  }

  lemma SinceNow(l0: Layout, tail: bool, s: State, t: State, mark: nat)
    requires Since(l0, tail, s, mark) && t.Inv() && Fixed(s.l, t.l, mark)
    requires tail && !t.failed ==> TailFree(t.l) && Raised(t.l.free, t.hwm, mark)
    ensures Since(l0, tail, t, mark)
  {
  }

  lemma SinceQuiet(l0: Layout, tail: bool, s: State, mark: nat)
    requires Since(l0, tail, s, mark)
    ensures Quiet(s.l, mark)
  {
  }

  lemma CarveSince(l0: Layout, tail: bool, s: State, size: nat, kind: Kind, cfg: Config, inPlace: bool, mark: nat)
    requires Since(l0, tail, s, mark) && !s.failed && size % 8 == 0
    requires kind.Regular? || (kind.Small? && kind.size <= 128 && size == ClassSize(ClassOf(kind.size)))
    ensures Leads(l0, tail, Carve(s, size, kind, cfg, inPlace), mark)
    decreases Growths(s.l, size + HEADER)
  {
    hide Take, TakeHwm, Grow, DropLists, Layout.Tiled, Layout.Listed, Raised, TailFree, Fixed, Quiet;
    var need := size + HEADER;
    var i := FirstFit(s.l, need, 0);
    SinceQuiet(l0, tail, s, mark);
    if i < |s.l.free| {
      var t := Take(s.l, i, need, kind);
      TakeInv(s.l, i, need, kind);
      TakeFixed(s.l, i, need, kind, mark);
      CarveIsOk(s, size, kind, cfg, inPlace);
      if tail && TailFree(t) { TakeRaises(s.l, i, need, kind, s.hwm, inPlace, mark); }
      if tail ==> TailFree(t) { SinceNow(l0, tail, s, s.(l := t, hwm := TakeHwm(s.l, i, need, s.hwm, inPlace)), mark); }
    } else if !cfg.movable {
      FailInv(s);
      DropFixed(s.l, mark);
      SinceNow(l0, tail, s, Fail(s), mark);
    } else if Doubled(2 * s.l.full, need) <= cfg.limit {
      var newFull := Doubled(2 * s.l.full, need);
      GrowthsDecrease(s.l, need, newFull);
      if tail { GrowTail(s.l, newFull); }
      GrowFixed(s.l, newFull, mark);
      var g := s.(l := Grow(s.l, newFull));
      SinceNow(l0, tail, s, g, mark);
      if size != 0 { CarveSince(l0, tail, g, size, kind, cfg, true, mark); }
    }
  }

  lemma ReuseSince(l0: Layout, tail: bool, s: State, n: nat, cfg: Config, mark: nat)
    requires Since(l0, tail, s, mark) && !s.failed && ClassOf(n) < CLASSES && |s.l.idle[ClassOf(n)]| > 0
    ensures Leads(l0, tail, AllocateSmall(s, n, cfg), mark)
  {
    hide Layout.Tiled;
    assert s.l.IdleAt(ClassOf(n), 0);
    ReuseIsOk(s, n);
  }

  lemma AllocationSince(l0: Layout, tail: bool, s: State, n: nat, small: bool, cfg: Config, mark: nat)
    requires Since(l0, tail, s, mark)
    ensures Leads(l0, tail, Allocation(s, n, small, cfg, true), mark)
  {
    Align8Multiple(n);
    hide Carve, Layout.Tiled, Align8, TailFree, Raised, Fixed, Quiet;
    if n != 0 && !s.failed {
      if small && cfg.bitmaps && ClassOf(n) < CLASSES {
        if |s.l.idle[ClassOf(n)]| > 0 { ReuseSince(l0, tail, s, n, cfg, mark); }
        else { CarveSince(l0, tail, s, ClassSize(ClassOf(n)), Small(n), cfg, true, mark); }
      } else {
        CarveSince(l0, tail, s, Align8(n), Regular, cfg, n <= s.l.full, mark);
      }
    }
  }

  lemma InsertSince(l0: Layout, tail: bool, s: State, l: Layout, o: nat, mark: nat)
    requires Since(l0, tail, s, mark) && !s.failed && l.Inv() && Fixed(s.l, l, mark) && l.free == s.l.free
    requires (tail ==> TailFree(l))
    requires mark <= o && o in l.tiles && l.tiles[o].kind.Lost? && l.start == s.l.start
    ensures Since(l0, tail, s.(l := Insert(l, o)), mark)
  {
    hide Layout.Tiled, Layout.Listed, Insert, TailFree, Fixed, Quiet;
    SinceQuiet(l0, tail, s, mark);
    QuietFixed(s.l, l, mark);
    InsertInv(l, o);
    InsertFixed(l, o, mark);
    FixedTrans(s.l, l, Insert(l, o), mark);
    InsertSame(l, o);
    if tail {
      InsertTail(l, o);
      RaisedDown(l, Insert(l, o), s.hwm, mark);
    }
    SinceNow(l0, tail, s, s.(l := Insert(l, o)), mark);
  }

  lemma RaisedDown(l: Layout, r: Layout, hwm: nat, mark: nat)
    requires Raised(l.free, hwm, mark) && TailFree(r)
    requires (Last(r.free) == Last(l.free) || Last(r.free) + HEADER <= Last(l.free))
    ensures Raised(r.free, hwm, mark)
  {
  }

  lemma ReleaseSince(l0: Layout, tail: bool, s: State, p: nat, mark: nat)
    requires Since(l0, tail, s, mark) && LiveAt(s.l, p) && p >= mark + HEADER
    ensures Since(l0, tail, Release(s, p), mark)
  {
    hide Layout.Tiled, Layout.Listed, Insert, TailFree, Raised, Fixed, Quiet, Since;
    if s.failed {
      DropSince(l0, tail, s, p, mark);
    } else if s.l.tiles[p - HEADER].kind.Small? {
      PushSince(l0, tail, s, p, mark);
    } else {
      FreeSince(l0, tail, s, p - HEADER, mark);
    }
  }

  lemma DropSince(l0: Layout, tail: bool, s: State, p: nat, mark: nat)
    requires Since(l0, tail, s, mark) && LiveAt(s.l, p) && p >= mark + HEADER && s.failed
    ensures Since(l0, tail, Release(s, p), mark)
  {
    MarkInv(s.l, p - HEADER, Lost);
    hide Layout.Tiled, Layout.Listed;
  }

  lemma PushSince(l0: Layout, tail: bool, s: State, p: nat, mark: nat)
    requires Since(l0, tail, s, mark) && LiveAt(s.l, p) && p >= mark + HEADER && !s.failed
    requires s.l.tiles[p - HEADER].kind.Small?
    ensures Since(l0, tail, Release(s, p), mark)
  {
    ReleaseIsOk(s, p);
    hide Layout.Tiled;
  }

  lemma FreeSince(l0: Layout, tail: bool, s: State, o: nat, mark: nat)
    requires Since(l0, tail, s, mark) && Live(s.l, o) && o >= mark && !s.failed
    ensures Since(l0, tail, s.(l := FreeBlock(s.l, o)), mark)
  {
    hide Layout.Tiled, Layout.Listed, Insert, TailFree, Raised, Fixed, Quiet;
    SinceQuiet(l0, tail, s, mark);
    MarkInv(s.l, o, Lost);
    MarkTail(s.l, o, Lost, mark);
    InsertSince(l0, tail, s, Mark(s.l, o, Lost), o, mark);
  }

  lemma MarkTail(l: Layout, o: nat, kind: Kind, mark: nat)
    requires mark <= o && Live(l, o) && Quiet(l, mark)
    ensures Fixed(l, Mark(l, o, kind), mark) && (TailFree(l) ==> TailFree(Mark(l, o, kind)))
  {
  }

  lemma ShrinkSince(l0: Layout, tail: bool, s: State, o: nat, size: nat, mark: nat)
    requires Since(l0, tail, s, mark) && Live(s.l, o) && s.l.tiles[o].kind.Regular? && mark <= o
    requires size % 8 == 0 && size + 2 * HEADER <= s.l.tiles[o].len
    ensures Since(l0, tail, Shrink(s, o, size), mark)
  {
    hide Layout.Tiled, Layout.Listed, Insert, TailFree, Raised, Fixed, Quiet;
    SinceQuiet(l0, tail, s, mark);
    ShrinkIsOk(s, o, size);
    MarkInv(s.l, o, Lost);
    CutInv(Mark(s.l, o, Lost), o, size + HEADER);
    var c := Cut(Mark(s.l, o, Lost), o, size + HEADER);
    MarkInv(c, o, Regular);
    SplitTail(s.l, o, size, mark);
    var m := Mark(c, o, Regular);
    if s.failed {
      SinceNow(l0, tail, s, s.(l := m), mark);
    } else {
      InsertSince(l0, tail, s, m, o + HEADER + size, mark);
    }
  }

  lemma SplitTail(l: Layout, o: nat, size: nat, mark: nat)
    requires mark <= o && Live(l, o) && Quiet(l, mark) && size + 2 * HEADER <= l.tiles[o].len && l.Inv()
    ensures var m := Mark(Cut(Mark(l, o, Lost), o, size + HEADER), o, Regular);
      Fixed(l, m, mark) && (TailFree(l) ==> TailFree(m))
  {
    assert l.TileOk(o);
    if l.free != [] { assert l.FreeAt(|l.free| - 1) && l.Apart(o, Last(l.free)) && l.Apart(Last(l.free), o); }
  }

  lemma ExpandSince(l0: Layout, tail: bool, s: State, o: nat, more: nat, mark: nat)
    requires Since(l0, tail, s, mark) && Live(s.l, o) && s.l.tiles[o].kind.Regular? && mark <= o
    requires 0 < more && more % 8 == 0 && CanExpandUp(s.l, o, more)
    ensures var i := Below(s.l.free, o);
      SinceIf(l0, tail, s.(l := ExpandUp(s.l, i, o, more), hwm := Max(s.hwm, s.l.free[i] + more)), mark)
  {
    hide Layout.Tiled, Layout.Listed, ExpandUp, TailFree, Raised, Fixed, Quiet;
    var i := Below(s.l.free, o);
    SinceQuiet(l0, tail, s, mark);
    ExpandUpIsOk(s.l, i, o, more);
    ExpandUpFixed(s.l, i, o, more, mark);
    if tail { ExpandUpRaises(s.l, i, o, more, s.hwm, mark); }
    var t := s.(l := ExpandUp(s.l, i, o, more), hwm := Max(s.hwm, s.l.free[i] + more));
    if tail ==> TailFree(t.l) { SinceNow(l0, tail, s, t, mark); }
  }

  lemma SlideSince(l0: Layout, tail: bool, s: State, o: nat, size: nat, mark: nat)
    requires Since(l0, tail, s, mark) && Live(s.l, o) && s.l.tiles[o].kind.Regular? && mark <= o
    requires size % 8 == 0 && s.l.tiles[o].len < size + HEADER && CanSlideDown(s.l, o, size + HEADER - s.l.tiles[o].len)
    ensures SinceIf(l0, tail, s.(l := SlideDown(s.l, Below(s.l.free, o), o, size)), mark)
  {
    hide Layout.Tiled, Layout.Listed, SlideDown, TailFree, Raised, Fixed, Quiet;
    var i := Below(s.l.free, o);
    SinceQuiet(l0, tail, s, mark);
    SlideDownIsOk(s.l, i, o, size);
    SlideDownFixed(s.l, i, o, size, mark);
    if tail { SlideDownRaises(s.l, i, o, size, s.hwm, mark); }
    var t := s.(l := SlideDown(s.l, i, o, size));
    if tail ==> TailFree(t.l) { SinceNow(l0, tail, s, t, mark); }
  }

  lemma StaySince(l0: Layout, tail: bool, s: State, o: nat, size: nat, mark: nat)
    requires Since(l0, tail, s, mark) && s.Inv() && Live(s.l, o) && s.l.tiles[o].kind.Regular? && mark <= o
    requires s.l.tiles[o].len % 8 == 0 && size % 8 == 0 && CanStay(s.l, o, size)
    ensures Leads(l0, tail, Resized(s, o, size), mark)
  {
    hide State.Inv, ExpandUp, SlideDown, Shrink, TailFree, Raised, Fixed, Quiet, Since, CanExpandUp, CanSlideDown;
    var more := size + HEADER - s.l.tiles[o].len;
    if more < 0 {
      ShrinkSince(l0, tail, s, o, size, mark);
    } else if more > 0 {
      if CanExpandUp(s.l, o, more) {
        ExpandSince(l0, tail, s, o, more, mark);
      } else {
        SlideSince(l0, tail, s, o, size, mark);
      }
    }
  }

  /** When a resize moves its block, the allocation it makes leaves more than a header of the buffer's end free. */
  ghost predicate MoveKeepsTail(s: State, p: nat, n: nat, small: bool, cfg: Config)
    requires s.Inv() && LiveAt(s.l, p)
  {
    var a := Allocation(s, if s.l.tiles[p - HEADER].kind.Small? then n else Align8(n), small, cfg, true);
    NeedsMove(s, p, n, small, cfg) && a.Block? ==> TailFree(a.s.l)
  }

  lemma MovedSince(l0: Layout, tail: bool, s: State, p: nat, n: nat, small: bool, cfg: Config, mark: nat)
    requires Since(l0, tail, s, mark) && LiveAt(s.l, p) && p >= mark + HEADER
    requires tail && Allocation(s, n, small, cfg, true).Block? ==> TailFree(Allocation(s, n, small, cfg, true).s.l)
    ensures Leads(l0, tail, Moved(s, p, n, small, cfg), mark)
  {
    hide Allocation, Release, TailFree, Raised, Fixed, Quiet, Since;
    AllocationSince(l0, tail, s, n, small, cfg, mark);
    SinceInv(l0, tail, s, mark);
    AllocationIsOk(s, n, small, cfg, true);
    var r := Allocation(s, n, small, cfg, true);
    assert Live(s.l, p - HEADER);
    if r.Block? { ReleaseSince(l0, tail, r.s, p, mark); }
  }

  lemma SinceInv(l0: Layout, tail: bool, s: State, mark: nat)
    requires Since(l0, tail, s, mark)
    ensures s.Inv()
  {
  }

  lemma InClassSince(l0: Layout, tail: bool, s: State, o: nat, n: nat, mark: nat)
    requires Since(l0, tail, s, mark) && Live(s.l, o) && o >= mark && s.(l := Mark(s.l, o, Small(n))).Inv()
    ensures Since(l0, tail, s.(l := Mark(s.l, o, Small(n))), mark)
  {
    hide Layout.Tiled, Layout.Listed;
    SinceQuiet(l0, tail, s, mark);
    MarkTail(s.l, o, Small(n), mark);
  }

  lemma LenMultiple(s: State, o: nat)
    requires s.Inv() && o in s.l.tiles
    ensures s.l.tiles[o].len % 8 == 0
  {
    assert s.l.TileOk(o);
  }

  lemma StayingSince(l0: Layout, tail: bool, s: State, p: nat, n: nat, small: bool, cfg: Config, mark: nat)
    requires Since(l0, tail, s, mark) && LiveAt(s.l, p) && p >= mark + HEADER && s.Inv()
    requires !NeedsMove(s, p, n, small, cfg)
    ensures Leads(l0, tail, Reallocation(s, p, n, small, cfg), mark)
  {
    var o := p - HEADER;
    hide State.Inv, Moved, Resized, CanStay, TailFree, Raised, Fixed, Quiet, Align8, Since;
    Align8Multiple(n);
    LenMultiple(s, o);
    if s.l.tiles[o].kind.Small? {
      ReallocationIsOk(s, p, n, small, cfg);
      InClassSince(l0, tail, s, o, n, mark);
    } else {
      StaySince(l0, tail, s, o, Align8(n), mark);
    }
  }

  lemma MovingSince(l0: Layout, tail: bool, s: State, p: nat, n: nat, small: bool, cfg: Config, mark: nat)
    requires Since(l0, tail, s, mark) && LiveAt(s.l, p) && p >= mark + HEADER && s.Inv()
    requires (tail ==> MoveKeepsTail(s, p, n, small, cfg))
    requires NeedsMove(s, p, n, small, cfg)
    ensures Leads(l0, tail, Reallocation(s, p, n, small, cfg), mark)
  {
    hide State.Inv, Allocation, Moved, Resized, CanStay, Leads, TailFree, Align8, Since;
    MovedSince(l0, tail, s, p, if s.l.tiles[p - HEADER].kind.Small? then n else Align8(n), small, cfg, mark);
  }

  lemma ReallocationSince(l0: Layout, tail: bool, s: State, p: nat, n: nat, small: bool, cfg: Config, mark: nat)
    requires Since(l0, tail, s, mark) && LiveAt(s.l, p) && p >= mark + HEADER && s.Inv()
    requires (tail ==> MoveKeepsTail(s, p, n, small, cfg))
    ensures Leads(l0, tail, Reallocation(s, p, n, small, cfg), mark)
  {
    hide Reallocation, NeedsMove, Leads, Since, MoveKeepsTail, State.Inv;
    if NeedsMove(s, p, n, small, cfg) {
      MovingSince(l0, tail, s, p, n, small, cfg, mark);
    } else {
      StayingSince(l0, tail, s, p, n, small, cfg, mark);
    }
  }

  /** An operation on what was allocated since the mark, after which the process goes on. */
  ghost predicate PastMark(s: State, op: Op, cfg: Config, mark: nat)
    requires s.Inv()
  {
    Legal(s, op) && (!op.Get? ==> op.p >= mark + HEADER) && Step(s, op, cfg).Some?
  }

  /** What the operation allocates leaves more than a header of the buffer's end free. */
  ghost predicate KeepsTail(s: State, op: Op, cfg: Config)
    requires s.Inv() && Legal(s, op) && Step(s, op, cfg).Some?
  {
    && (Step(s, op, cfg).value.failed || TailFree(Step(s, op, cfg).value.l))
    && (op.Resize? ==> MoveKeepsTail(s, op.p, op.n, op.small, cfg))
  }

  /** A run on what was allocated since the mark; if `tail`, no allocation of it takes the buffer's end. */
  ghost predicate RunPastMark(s: State, ops: seq<Op>, cfg: Config, mark: nat, tail: bool)
    requires s.Inv()
    decreases |ops|
  {
    ops == [] || (PastMark(s, ops[0], cfg, mark) && (tail ==> KeepsTail(s, ops[0], cfg))
                  && RunPastMark(Step(s, ops[0], cfg).value, ops[1..], cfg, mark, tail))
  }

  lemma StepSince(l0: Layout, tail: bool, s: State, op: Op, cfg: Config, mark: nat)
    requires Since(l0, tail, s, mark) && s.Inv() && PastMark(s, op, cfg, mark) && (tail ==> KeepsTail(s, op, cfg))
    ensures Since(l0, tail, Step(s, op, cfg).value, mark)
  {
    hide Layout.Tiled, Layout.Listed, Allocation, Reallocation, Release, TailFree, Raised, Fixed, Quiet, MoveKeepsTail,
      Since;
    SinceInv(l0, tail, s, mark);
    match op
    case Get(n, small) => AllocationSince(l0, tail, s, n, small, cfg, mark);
    case Put(p) => ReleaseSince(l0, tail, s, p, mark);
    case Resize(p, n, small) => ReallocationSince(l0, tail, s, p, n, small, cfg, mark);
  }

  lemma {:induction false} RunSince(l0: Layout, tail: bool, s: State, ops: seq<Op>, cfg: Config, mark: nat)
    requires Since(l0, tail, s, mark) && s.Inv() && RunPastMark(s, ops, cfg, mark, tail)
    ensures Run(s, ops, cfg).Some? && Since(l0, tail, Run(s, ops, cfg).value, mark)
    decreases |ops|
  {
    hide Step, Since, State.Inv, Legal;
    SinceInv(l0, tail, s, mark);
    if ops != [] {
      StepSince(l0, tail, s, ops[0], cfg, mark);
      RunSince(l0, tail, Step(s, ops[0], cfg).value, ops[1..], cfg, mark);
    }
  }

  // ---- What a reset restores ----

  /** The marked state s in a buffer that has grown to `full` bytes. */
  ghost function Restored(s: State, mark: nat, full: nat): State
    requires mark <= full
  {
    State(s.l.(full := full, tiles := s.l.tiles[mark := Tile(full - mark, Free)]), mark + HEADER, false)
  }

  lemma MarkedQuiet(s: State, mark: nat)
    requires Marked(s, mark)
    ensures Quiet(s.l, mark)
  {
    forall o | o < mark && o in s.l.tiles ensures Unlisted(s.l.tiles[o].kind) { assert s.l.TileOk(o); }
  }

  /** Dropping every list and making one free block from the mark on gives the marked state, if
      nothing below changed. */
  lemma ResetGivesRestored(s: State, t: Layout, mark: nat)
    requires Marked(s, mark) && t.Inv() && Fixed(s.l, t, mark)
    ensures mark <= t.full && State(ResetLayout(t, mark), mark + HEADER, false) == Restored(s, mark, t.full)
  {
    MarkedQuiet(s, mark);
    assert t.TileOk(mark);
    NothingPast(s.l, mark);
    assert ResetLayout(t, mark).tiles == s.l.tiles[mark := Tile(t.full - mark, Free)];
    assert s.l.idle == [[], [], [], []];
  }

  lemma NothingPast(l: Layout, mark: nat)
    requires l.Inv() && mark in l.tiles && l.End(mark) == l.full
    ensures forall o :: o in l.tiles ==> o <= mark
  {
    forall o | o in l.tiles ensures o <= mark { assert l.Apart(mark, o) && l.TileOk(o); }
  }

  /**
  After any run since the mark, freeing everything past it gives back the marked state: the blocks below
  the mark are the ones it had, whatever was allocated, freed, resized or failed to allocate in between.
  */
  lemma FreeingSinceMarkRestores(s: State, ops: seq<Op>, cfg: Config, mark: nat)
    requires Marked(s, mark) && RunPastMark(s, ops, cfg, mark, false)
    ensures Run(s, ops, cfg).Some?
    ensures var t := Run(s, ops, cfg).value;
      && mark in t.l.tiles && mark + HEADER <= t.l.full
      && State(ResetLayout(t.l, mark), mark + HEADER, false) == Restored(s, mark, t.l.full)
      && Marked(Restored(s, mark, t.l.full), mark)
  {
    MarkedQuiet(s, mark);
    MarkedSince(s, false, mark);
    RunSince(s.l, false, s, ops, cfg, mark);
    var t := Run(s, ops, cfg).value;
    assert t.l.TileOk(mark);
    ResetGivesRestored(s, t.l, mark);
    ResetIsMarked(t.l, mark);
  }

  /**
  A buffer whose free list starts at the mark and whose high-water mark is just past it holds nothing past
  the mark, if no allocation since has taken its end: there is nothing to free.
  */
  lemma SkippingRestores(s: State, ops: seq<Op>, cfg: Config, mark: nat)
    requires Marked(s, mark) && s.l.tiles[mark].len > HEADER && RunPastMark(s, ops, cfg, mark, true)
    ensures Run(s, ops, cfg).Some? && Run(s, ops, cfg).value.l.full >= mark
    ensures var t := Run(s, ops, cfg).value;
      LinkAt(t.l.free, 0) == mark && t.hwm == mark + HEADER ==> t == Restored(s, mark, t.l.full)
  {
    MarkedQuiet(s, mark);
    MarkedSince(s, true, mark);
    RunSince(s.l, true, s, ops, cfg, mark);
    var t := Run(s, ops, cfg).value;
    assert t.l.TileOk(mark) && s.l.TileOk(mark);
    if LinkAt(t.l.free, 0) == mark && t.hwm == mark + HEADER {
      assert t.l.FreeAt(0);
      OneFreeIsRestored(s, t, mark);
    }
  }

  lemma OneFreeIsRestored(s: State, t: State, mark: nat)
    requires Marked(s, mark) && t.Inv() && Fixed(s.l, t.l, mark) && !t.failed && t.hwm == mark + HEADER
    requires t.l.FreeAt(0) && t.l.free != [] && t.l.free[0] == mark && t.l.End(mark) == t.l.full
    ensures mark <= t.l.full && t == Restored(s, mark, t.l.full)
  {
    MarkedQuiet(s, mark);
    NothingPast(t.l, mark);
    assert t.l.FreeAt(1);
    assert t.l.IdleAt(0, 0) && t.l.IdleAt(1, 0) && t.l.IdleAt(2, 0) && t.l.IdleAt(3, 0);
    assert t.l.idle == [[], [], [], []];
    ResetGivesRestored(s, t.l, mark);
    assert t.l.free == [mark];
    assert ResetLayout(t.l, mark).tiles == t.l.tiles;
  }

  /** In any run since the mark, skipping is right exactly when the free block at the mark is the whole rest of the
      buffer. */
  lemma SkippingIsExact(s: State, ops: seq<Op>, cfg: Config, mark: nat)
    requires Marked(s, mark) && RunPastMark(s, ops, cfg, mark, false)
    ensures Run(s, ops, cfg).Some? && mark in Run(s, ops, cfg).value.l.tiles && Run(s, ops, cfg).value.l.full >= mark
    ensures var t := Run(s, ops, cfg).value;
      LinkAt(t.l.free, 0) == mark && t.hwm == mark + HEADER ==>
      (t == Restored(s, mark, t.l.full) <==> t.l.End(mark) == t.l.full)
  {
    MarkedQuiet(s, mark);
    MarkedSince(s, false, mark);
    RunSince(s.l, false, s, ops, cfg, mark);
    var t := Run(s, ops, cfg).value;
    assert t.l.TileOk(mark) && s.l.TileOk(mark);
    if LinkAt(t.l.free, 0) == mark && t.hwm == mark + HEADER {
      assert t.l.free != [] && t.l.FreeAt(0);
      if t.l.End(mark) == t.l.full { OneFreeIsRestored(s, t, mark); }
    }
  }

  // ---- Without the tail hypothesis ----

  /** A buffer of 128 bytes with a main message at 48, whose mark is 64. */
  function Tight(first: Tile, rest: map<nat, Tile>, free: seq<nat>): State {
    State(Layout(40, 128, map[40 := Tile(24, Regular), 64 := first] + rest, free, [[], [], [], []]), 72, false)
  }

  lemma TightInv(first: Tile, rest: map<nat, Tile>, free: seq<nat>)
    requires (first.len == 64 && rest == map[]) || (first.len == 24 && rest.Keys == {88} && rest[88].len == 40)
    requires first.kind in {Free, Regular} && (88 in rest ==> rest[88].kind in {Free, Regular})
    requires free == (if first.kind.Free? then [64] else []) + (if 88 in rest && rest[88].kind.Free? then [88] else [])
    ensures Tight(first, rest, free).Inv()
  {
    TightTiled(first, rest, free);
    hide Layout.Tiled;
  }

  lemma TightTiled(first: Tile, rest: map<nat, Tile>, free: seq<nat>)
    requires (first.len == 64 && rest == map[]) || (first.len == 24 && rest.Keys == {88} && rest[88].len == 40)
    requires first.kind in {Free, Regular} && (88 in rest ==> rest[88].kind in {Free, Regular})
    requires free == (if first.kind.Free? then [64] else []) + (if 88 in rest && rest[88].kind.Free? then [88] else [])
    ensures Tight(first, rest, free).l.Tiled()
  {
    var l := Tight(first, rest, free).l;
    assert first.kind.Free? ==> free[0] == 64;
    assert 88 in rest && rest[88].kind.Free? ==> free[|free| - 1] == 88;
    assert l.TileOk(40) && l.TileOk(64) && (88 in rest ==> l.TileOk(88));
  }

  const TIGHT: Config := Config(false, false, 0)

  /** Taking the whole of the one free block. */
  lemma WholeTaken(s: State, f: nat, n: nat, cfg: Config)
    requires s.Inv() && !s.failed && n > 0 && s.l.free == [f] && f in s.l.tiles
    requires s.l.tiles[f].len == Align8(n) + HEADER
    requires HEADER <= s.hwm
    ensures Allocation(s, n, false, cfg, true)
      == Block(f + HEADER, s.(l := s.l.(tiles := s.l.tiles[f := Tile(Align8(n) + HEADER, Regular)], free := [])))
  {
    hide Layout.Tiled, Layout.Listed, Align8;
    assert FirstFit(s.l, Align8(n) + HEADER, 0) == 0;
    assert Take(s.l, 0, Align8(n) + HEADER, Regular).tiles == s.l.tiles[f := Tile(Align8(n) + HEADER, Regular)];
  }

  lemma TightTake()
    ensures var s := Tight(Tile(64, Free), map[], [64]); var t := Tight(Tile(64, Regular), map[], []);
      s.Inv() && Allocation(s, 56, false, TIGHT, true) == Block(72, t)
  {
    hide State.Inv, Allocation;
    TightInv(Tile(64, Free), map[], [64]);
    var s := Tight(Tile(64, Free), map[], [64]);
    WholeTaken(s, 64, 56, TIGHT);
    assert s.l.tiles[64 := Tile(64, Regular)] == Tight(Tile(64, Regular), map[], []).l.tiles;
  }

  /** Shrinking a block when nothing is free. */
  lemma ShrunkAlone(s: State, o: nat, size: nat)
    requires s.Inv() && !s.failed && Live(s.l, o) && s.l.tiles[o].kind.Regular? && s.l.free == []
    requires size % 8 == 0 && size + 2 * HEADER <= s.l.tiles[o].len
    ensures var rest := s.l.tiles[o].len - size - HEADER;
      Shrink(s, o, size) == s.(l := s.l.(free := [o + HEADER + size],
        tiles := s.l.tiles[o := Tile(size + HEADER, Regular)][o + HEADER + size := Tile(rest, Free)]))
  {
    hide Layout.Tiled, Layout.Listed;
    MarkInv(s.l, o, Lost);
    CutInv(Mark(s.l, o, Lost), o, size + HEADER);
    MarkInv(Cut(Mark(s.l, o, Lost), o, size + HEADER), o, Regular);
    var m := Mark(Cut(Mark(s.l, o, Lost), o, size + HEADER), o, Regular);
    assert Insert(m, o + HEADER + size) == Give(m, 0, o + HEADER + size);
    assert Give(m, 0, o + HEADER + size).tiles
      == s.l.tiles[o := Tile(size + HEADER, Regular)][o + HEADER + size :=
        Tile(s.l.tiles[o].len - size - HEADER, Free)];
  }

  lemma TightShrink()
    ensures var s := Tight(Tile(64, Regular), map[], []);
      var t := Tight(Tile(24, Regular), map[88 := Tile(40, Free)], [88]);
      s.Inv() && Reallocation(s, 72, 16, false, TIGHT) == Block(72, t)
  {
    hide State.Inv, Shrink, CanExpandUp, CanSlideDown, Moved;
    TightInv(Tile(64, Regular), map[], []);
    var s := Tight(Tile(64, Regular), map[], []);
    ShrunkAlone(s, 64, 16);
    assert s.l.tiles[64 := Tile(24, Regular)][88 := Tile(40, Free)]
      == Tight(Tile(24, Regular), map[88 := Tile(40, Free)], [88]).l.tiles;
  }

  lemma TightTakeRest()
    ensures var s := Tight(Tile(24, Regular), map[88 := Tile(40, Free)], [88]);
      var t := Tight(Tile(24, Regular), map[88 := Tile(40, Regular)], []);
      s.Inv() && Allocation(s, 32, false, TIGHT, true) == Block(96, t)
  {
    hide State.Inv, Allocation;
    TightInv(Tile(24, Regular), map[88 := Tile(40, Free)], [88]);
    var s := Tight(Tile(24, Regular), map[88 := Tile(40, Free)], [88]);
    WholeTaken(s, 88, 32, TIGHT);
    assert s.l.tiles[88 := Tile(40, Regular)] == Tight(Tile(24, Regular), map[88 := Tile(40, Regular)], []).l.tiles;
  }

  lemma TightFree()
    ensures var s := Tight(Tile(24, Regular), map[88 := Tile(40, Regular)], []);
      var t := Tight(Tile(24, Free), map[88 := Tile(40, Regular)], [64]);
      s.Inv() && Release(s, 72) == t
  {
    TightInv(Tile(24, Regular), map[88 := Tile(40, Regular)], []);
    var s := Tight(Tile(24, Regular), map[88 := Tile(40, Regular)], []);
    MarkInv(s.l, 64, Lost);
    assert Insert(Mark(s.l, 64, Lost), 64).tiles == Tight(Tile(24, Free), map[88 := Tile(40, Regular)], [64]).l.tiles;
  }

  const TIGHT_RUN: seq<Op> := [Get(56, false), Resize(72, 16, false), Get(32, false), Put(72)]

  /**
  When allocations take the buffer's end, the test for skipping can pass with a block still allocated: here
  the block at 96 stays when the main message is cleared.
  */
  lemma SkippingCanKeepBlock()
    ensures var s := Tight(Tile(64, Free), map[], [64]);
      && Marked(s, 64) && RunPastMark(s, TIGHT_RUN, TIGHT, 64, false) && Run(s, TIGHT_RUN, TIGHT).Some?
      && var t := Run(s, TIGHT_RUN, TIGHT).value;
        LinkAt(t.l.free, 0) == 64 && t.hwm == 64 + HEADER && LiveAt(t.l, 96)
  {
    TightTake();
    TightShrink();
    TightTakeRest();
    TightFree();
    hide Allocation, Reallocation, Release, Layout.Tiled, Layout.Listed;
    var s := Tight(Tile(64, Free), map[], [64]);
    var s1 := Step(s, Get(56, false), TIGHT).value;
    var s2 := Step(s1, Resize(72, 16, false), TIGHT).value;
    var s3 := Step(s2, Get(32, false), TIGHT).value;
    assert TIGHT_RUN[1..][1..] == [Get(32, false), Put(72)];
    assert TIGHT_RUN[1..][1..][1..] == [Put(72)];
    assert Run(s3, [Put(72)], TIGHT) == Some(Release(s3, 72));
    assert RunPastMark(s3, [Put(72)], TIGHT, 64, false);
    assert RunPastMark(s2, TIGHT_RUN[1..][1..], TIGHT, 64, false);
    assert RunPastMark(s1, TIGHT_RUN[1..], TIGHT, 64, false);
  }
}
