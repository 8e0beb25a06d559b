/**
Runs of heap operations: what holds in every state they can reach, where every byte of the buffer
is, and that the inline and the general way to allocate agree.
*/
module HeapRuns {
  import opened Layouts
  import opened HeapSpec

  // ---- Every byte is accounted for ----

  /** What a tile's bytes, header and all, are used for. */
  datatype Use = InFree | InLive | InIdle | InLost

  function UseOf(k: Kind): Use {
    match k
    case Free => InFree
    case Idle(_) => InIdle
    case Lost => InLost
    case _ => InLive
  }

  /** The bytes put to use u from offset o up to `end`, found by walking from each tile to the next. */
  ghost function Walk(tiles: map<nat, Tile>, o: nat, end: nat, u: Use): nat
    decreases end - o
  {
    if o < end && o in tiles && tiles[o].len > 0 then
      (if UseOf(tiles[o].kind) == u then tiles[o].len else 0) + Walk(tiles, o + tiles[o].len, end, u)
    else 0
  }

  ghost function Bytes(l: Layout, u: Use): nat {
    Walk(l.tiles, l.start, l.full, u)
  }

  lemma {:induction false} WalkSplit(l: Layout, o: nat, mid: nat, end: nat, u: Use)
    requires l.Inv() && o <= mid <= end <= l.full
    requires (o == l.full || o in l.tiles) && (mid == l.full || mid in l.tiles)
    ensures Walk(l.tiles, o, end, u) == Walk(l.tiles, o, mid, u) + Walk(l.tiles, mid, end, u)
    decreases mid - o
  {
    if o < mid {
      assert l.TileOk(o) && l.Apart(o, mid);
      WalkSplit(l, l.End(o), mid, end, u);
    }
  }

  lemma {:induction false} WalkSame(l: Layout, r: Layout, o: nat, end: nat, u: Use)
    requires l.Inv() && forall x :: o <= x < end && x in l.tiles ==> x in r.tiles && r.tiles[x] == l.tiles[x]
    requires (o == l.full || o in l.tiles) && end <= l.full
    ensures Walk(r.tiles, o, end, u) == Walk(l.tiles, o, end, u)
    decreases end - o
  {
    if o < end {
      assert l.TileOk(o);
      WalkSame(l, r, l.End(o), end, u);
    }
  }

  /** Two layouts that differ only between the boundaries x and y differ by the bytes between them. */
  lemma WalkReplaced(l: Layout, r: Layout, x: nat, y: nat, u: Use)
    requires l.Inv() && r.Inv() && l.start == r.start && l.full == r.full && l.start <= x <= y <= l.full
    requires x in l.tiles && x in r.tiles && (y == l.full || (y in l.tiles && y in r.tiles))
    requires forall o :: o in l.tiles && !(x <= o < y) ==> o in r.tiles && r.tiles[o] == l.tiles[o]
    ensures Bytes(r, u) + Walk(l.tiles, x, y, u) == Bytes(l, u) + Walk(r.tiles, x, y, u)
  {
    WalkSplit(l, l.start, x, l.full, u);
    WalkSplit(l, x, y, l.full, u);
    WalkSplit(r, r.start, x, r.full, u);
    WalkSplit(r, x, y, r.full, u);
    WalkSame(l, r, l.start, x, u);
    WalkSame(l, r, y, l.full, u);
  }

  /** Together the uses are the whole buffer past its header. */
  lemma {:induction false} WalkCovers(l: Layout, o: nat)
    requires l.Inv() && (o == l.full || o in l.tiles)
    ensures o <= l.full
    ensures Walk(l.tiles, o, l.full, InFree) + Walk(l.tiles, o, l.full, InLive)
      + Walk(l.tiles, o, l.full, InIdle) + Walk(l.tiles, o, l.full, InLost) == l.full - o
    decreases l.full - o
  {
    if o in l.tiles {
      assert l.TileOk(o);
      WalkCovers(l, l.End(o));
    }
  }

  function Share(t: Tile, u: Use): nat {
    if UseOf(t.kind) == u then t.len else 0
  }

  lemma OneTile(l: Layout, o: nat, u: Use)
    requires l.Inv() && o in l.tiles
    ensures Walk(l.tiles, o, l.End(o), u) == Share(l.tiles[o], u)
  {
    assert l.TileOk(o);
    assert Walk(l.tiles, l.End(o), l.End(o), u) == 0;
  }

  lemma RetagBytes(l: Layout, r: Layout, o: nat, u: Use)
    requires l.Inv() && r.Inv() && l.start == r.start && l.full == r.full && o in l.tiles && o in r.tiles
    requires r.tiles == l.tiles[o := r.tiles[o]] && r.tiles[o].len == l.tiles[o].len
    ensures Bytes(r, u) + Share(l.tiles[o], u) == Bytes(l, u) + Share(r.tiles[o], u)
  {
    assert l.TileOk(o);
    OneTile(l, o, u);
    OneTile(r, o, u);
    WalkReplaced(l, r, o, l.End(o), u);
  }

  lemma CutBytes(l: Layout, o: nat, len: nat, u: Use)
    requires l.Inv() && o in l.tiles && l.tiles[o].kind.Lost?
    requires HEADER <= len <= l.tiles[o].len - HEADER && len % 8 == 0
    ensures Bytes(Cut(l, o, len), u) == Bytes(l, u)
  {
    var r := Cut(l, o, len);
    CutInv(l, o, len);
    assert l.TileOk(o);
    OneTile(l, o, u);
    OneTile(r, o, u);
    OneTile(r, o + len, u);
    WalkSplit(r, o, o + len, l.End(o), u);
    WalkReplaced(l, r, o, l.End(o), u);
  }

  lemma FuseBytes(l: Layout, o: nat, u: Use)
    requires l.Inv() && o in l.tiles && l.tiles[o].kind.Lost?
    requires l.End(o) in l.tiles && l.tiles[l.End(o)].kind.Lost?
    ensures Fuse(l, o).Inv() && Bytes(Fuse(l, o), u) == Bytes(l, u)
  {
    var r := Fuse(l, o);
    FuseInv(l, o);
    var e := l.End(o);
    assert l.TileOk(o) && l.TileOk(e);
    CutFuse(l, o);
    CutBytes(r, o, l.tiles[o].len, u);
  }

  /** Cutting a joined tile where the two met gives them back. */
  lemma CutFuse(l: Layout, o: nat)
    requires l.Inv() && o in l.tiles && l.tiles[o].kind.Lost?
    requires l.End(o) in l.tiles && l.tiles[l.End(o)].kind.Lost?
    ensures l.TileOk(o) && l.TileOk(l.End(o))
    ensures Cut(Fuse(l, o), o, l.tiles[o].len) == l
  {
    assert l.TileOk(o) && l.TileOk(l.End(o));
    assert Cut(Fuse(l, o), o, l.tiles[o].len).tiles == l.tiles;
  }

  lemma PortionBytes(l: Layout, i: nat, f: nat, need: nat, kind: Kind, u: Use)
    requires l.Inv() && f in l.tiles && l.tiles[f].kind.Lost? && i <= |l.free|
    requires HEADER <= need <= l.tiles[f].len && need % 8 == 0
    requires (i > 0 ==> l.free[i - 1] < f) && (i < |l.free| ==> l.End(f) <= l.free[i])
    requires Unlisted(kind) && (kind.Small? ==> kind.size <= 128 && need == HEADER + ClassSize(ClassOf(kind.size)))
    ensures l.TileOk(f) && Portion(l, i, f, need, kind).Inv()
    ensures Portion(l, i, f, need, kind).tiles[f] == Tile(need, kind)
    ensures Bytes(Portion(l, i, f, need, kind), u) + (if u.InLost? then l.tiles[f].len else 0)
         == Bytes(l, u) + (if u == UseOf(kind) then need else 0) + (if u.InFree? then l.tiles[f].len - need else 0)
  {
    hide Layout.Tiled, Layout.Listed, Bytes;
    PortionInv(l, i, f, need, kind);
    var r := Portion(l, i, f, need, kind);
    if l.tiles[f].len - need >= HEADER {
      GiveAfterCut(l, i, f, need);
      CutBytes(l, f, need, u);
      var c := Cut(l, f, need);
      RetagBytes(c, Give(c, i, f + need), f + need, u);
      RetagBytes(Give(c, i, f + need), r, f, u);
    } else {
      RetagBytes(l, r, f, u);
    }
  }

  lemma TakeBytes(l: Layout, i: nat, need: nat, kind: Kind, u: Use)
    requires l.Inv() && i < |l.free| && l.free[i] in l.tiles
    requires HEADER <= need <= l.tiles[l.free[i]].len && need % 8 == 0
    requires kind.Regular? || (kind.Small? && kind.size <= 128 && need == HEADER + ClassSize(ClassOf(kind.size)))
    ensures Bytes(Take(l, i, need, kind), u) + (if u.InFree? then need else 0)
        == Bytes(l, u) + (if u.InLive? then need else 0)
  {
    HeldBetween(l, i);
    RetagBytes(l, Hold(l, i), l.free[i], u);
    PortionBytes(Hold(l, i), i, l.free[i], need, kind, u);
  }

  /** The one case where freeing loses bytes: a free block below to join, and none above. */
  ghost predicate ShortTail(l: Layout, o: nat) {
    var i := Below(l.free, o);
    i == |l.free| && JoinsBelow(l, i, o)
  }

  lemma TakeInAboveBytes(l: Layout, i: nat, o: nat, u: Use)
    requires l.Inv() && JoinsAbove(l, i, o) && l.tiles[o].kind.Lost?
    ensures Bytes(TakeInAbove(l, i, o), u) + (if u.InFree? then l.tiles[l.free[i]].len else 0)
         == Bytes(l, u) + (if u.InLost? then l.tiles[l.free[i]].len else 0)
    ensures TakeInAbove(l, i, o).tiles[o].len == l.tiles[o].len + l.tiles[l.free[i]].len
  {
    HoldInv(l, i);
    RetagBytes(l, Hold(l, i), l.free[i], u);
    FuseBytes(Hold(l, i), o, u);
  }

  lemma HeldFuseBytes(l: Layout, i: nat, o: nat, u: Use)
    requires l.Inv() && JoinsBelow(l, i, o) && o in l.tiles && l.tiles[o].kind.Lost?
    ensures var q := l.free[i - 1]; var g := Fuse(Hold(l, i - 1), q);
      && g.Inv() && g.tiles[q] == Tile(l.tiles[q].len + l.tiles[o].len, Lost) && l.TileOk(q) && l.TileOk(o)
      && Bytes(g, u) + (if u.InFree? then l.tiles[q].len else 0)
        == Bytes(l, u) + (if u.InLost? then l.tiles[q].len else 0)
  {
    var q := l.free[i - 1];
    HoldInv(l, i - 1);
    RetagBytes(l, Hold(l, i - 1), q, u);
    FuseBytes(Hold(l, i - 1), q, u);
    assert l.TileOk(q) && l.TileOk(o);
  }

  lemma JoinBelowBytes(l: Layout, i: nat, o: nat, u: Use)
    requires l.Inv() && JoinsBelow(l, i, o) && o in l.tiles && l.tiles[o].kind.Lost?
    requires i < |l.free| ==> o < l.free[i]
    ensures Bytes(JoinBelow(l, i, o), u) + (if u.InLost? then l.tiles[o].len else 0)
         == Bytes(l, u) + (if u.InFree? then l.tiles[o].len else 0)
  {
    HeldFuseBytes(l, i, o, u);
    JoinBelowInv(l, i, o);
    RetagBytes(Fuse(Hold(l, i - 1), l.free[i - 1]), JoinBelow(l, i, o), l.free[i - 1], u);
  }

  lemma JoinBelowShortBytes(l: Layout, i: nat, o: nat, u: Use)
    requires l.Inv() && JoinsBelow(l, i, o) && o in l.tiles && l.tiles[o].kind.Lost? && i == |l.free|
    ensures l.TileOk(o)
    ensures Bytes(JoinBelowShort(l, i, o), u) + (if u.InLost? then l.tiles[o].len - HEADER else 0)
         == Bytes(l, u) + (if u.InFree? then l.tiles[o].len - HEADER else 0)
  {
    hide Layout.Tiled, Layout.Listed, Bytes;
    var q := l.free[i - 1];
    var len := l.tiles[q].len + l.tiles[o].len - HEADER;
    HeldFuseBytes(l, i, o, u);
    JoinBelowShortInv(l, i, o);
    var g := Fuse(Hold(l, i - 1), q);
    CutInv(g, q, len);
    CutBytes(g, q, len, u);
    RetagBytes(Cut(g, q, len), JoinBelowShort(l, i, o), q, u);
  }

  lemma GiveBytes(l: Layout, i: nat, o: nat, u: Use)
    requires l.Inv() && i <= |l.free| && o in l.tiles && l.tiles[o].kind.Lost?
    requires (i > 0 ==> l.free[i - 1] < o) && (i < |l.free| ==> o < l.free[i])
    ensures Bytes(Give(l, i, o), u) + (if u.InLost? then l.tiles[o].len else 0)
         == Bytes(l, u) + (if u.InFree? then l.tiles[o].len else 0)
  {
    GiveInv(l, i, o);
    RetagBytes(l, Give(l, i, o), o, u);
  }

  lemma InsertBytes(l: Layout, o: nat, u: Use)
    requires l.Inv() && o in l.tiles && l.tiles[o].kind.Lost?
    ensures l.TileOk(o)
    ensures var got := l.tiles[o].len - (if ShortTail(l, o) then HEADER else 0);
      Bytes(Insert(l, o), u) + (if u.InLost? then got else 0) == Bytes(l, u) + (if u.InFree? then got else 0)
  {
    assert l.TileOk(o);
    var i := Below(l.free, o);
    assert l.FreeAt(i);
    hide Layout.Tiled, Layout.Listed, Bytes, Give, JoinBelow, JoinBelowShort, TakeInAbove;
    if i == |l.free| {
      if JoinsBelow(l, i, o) { JoinBelowShortBytes(l, i, o, u); } else { GiveBytes(l, i, o, u); }
    } else {
      if JoinsAbove(l, i, o) { TakeInAboveInv(l, i, o); TakeInAboveBytes(l, i, o, u); }
      var up := if JoinsAbove(l, i, o) then TakeInAbove(l, i, o) else l;
      if JoinsBelow(up, i, o) { JoinBelowBytes(up, i, o, u); } else { GiveBytes(up, i, o, u); }
    }
  }

  lemma GrowBytes(l: Layout, newFull: nat, u: Use)
    requires l.Inv() && l.full + HEADER <= newFull && newFull % 8 == 0
    ensures Bytes(Grow(l, newFull), u) == Bytes(l, u) + (if u.InFree? then newFull - l.full else 0)
  {
    var e := Extend(l, newFull);
    ExtendInv(l, newFull);
    WalkSplit(e, e.start, l.full, newFull, u);
    OneTile(e, l.full, u);
    WalkSame(l, e, l.start, l.full, u);
    var k := |l.free|;
    if JoinsBelow(e, k, l.full) {
      JoinBelowBytes(e, k, l.full, u);
    } else {
      if k > 0 { assert l.FreeAt(k - 1) && l.TileOk(l.free[k - 1]); }
      GiveBytes(e, k, l.full, u);
    }
  }

  // ---- What each operation does with the bytes ----

  lemma CarveBytes(s: State, size: nat, kind: Kind, cfg: Config, inPlace: bool, u: Use)
    requires s.Inv() && !s.failed && size % 8 == 0 && !u.InFree?
    requires kind.Regular? || (kind.Small? && kind.size <= 128 && size == ClassSize(ClassOf(kind.size)))
    ensures var r := Carve(s, size, kind, cfg, inPlace);
      (r.Block? ==> Bytes(r.s.l, u) == Bytes(s.l, u) + (if u.InLive? then size + HEADER else 0))
      && (r.Null? && !r.s.failed ==> Bytes(r.s.l, u) == Bytes(s.l, u))
    decreases Growths(s.l, size + HEADER)
  {
    hide Take, TakeHwm, Grow, Layout.Tiled, Layout.Listed, Bytes;
    var need := size + HEADER;
    var i := FirstFit(s.l, need, 0);
    if i < |s.l.free| {
      TakeBytes(s.l, i, need, kind, u);
    } else if cfg.movable && Doubled(2 * s.l.full, need) <= cfg.limit {
      var newFull := Doubled(2 * s.l.full, need);
      GrowthsDecrease(s.l, need, newFull);
      GrowBytes(s.l, newFull, u);
      if size != 0 {
        CarveBytes(s.(l := Grow(s.l, newFull)), size, kind, cfg, true, u);
      }
    }
  }

  lemma ReuseBytes(s: State, n: nat, u: Use)
    requires s.Inv() && !s.failed && ClassOf(n) < CLASSES && |s.l.idle[ClassOf(n)]| > 0
    ensures s.l.IdleAt(ClassOf(n), 0)
    ensures var c := ClassOf(n); var o := s.l.idle[c][0] - HEADER; var r := Mark(PopIdle(s.l, c), o, Small(n));
      Bytes(r, u) + (if u.InIdle? then r.tiles[o].len else 0)
        == Bytes(s.l, u) + (if u.InLive? then r.tiles[o].len else 0)
  {
    var c := ClassOf(n);
    PopIdleInv(s.l, c);
    var o := s.l.idle[c][0] - HEADER;
    assert s.l.TileOk(o);
    MarkInv(PopIdle(s.l, c), o, Small(n));
    RetagBytes(s.l, PopIdle(s.l, c), o, u);
    RetagBytes(PopIdle(s.l, c), Mark(PopIdle(s.l, c), o, Small(n)), o, u);
  }

  /** The outcome's block is all that is added to the allocated bytes, and nothing is lost. */
  ghost predicate AddsBlock(s: State, r: Outcome) {
    && (r.Block? ==> LiveAt(r.s.l, r.p) && Bytes(r.s.l, InLost) == Bytes(s.l, InLost))
    && (r.Block? ==> Bytes(r.s.l, InLive) == Bytes(s.l, InLive) + r.s.l.tiles[r.p - HEADER].len)
    && (r.Null? && !r.s.failed ==>
      Bytes(r.s.l, InLost) == Bytes(s.l, InLost)
      && Bytes(r.s.l, InLive) == Bytes(s.l, InLive))
  }

  lemma CarveAddsBlock(s: State, size: nat, kind: Kind, cfg: Config, inPlace: bool)
    requires s.Inv() && !s.failed && size % 8 == 0
    requires kind.Regular? || (kind.Small? && kind.size <= 128 && size == ClassSize(ClassOf(kind.size)))
    ensures AddsBlock(s, Carve(s, size, kind, cfg, inPlace))
  {
    CarveBytes(s, size, kind, cfg, inPlace, InLost);
    CarveBytes(s, size, kind, cfg, inPlace, InLive);
    CarveIsOk(s, size, kind, cfg, inPlace);
    hide Carve, Bytes, Layout.Inv;
  }

  lemma ReuseAddsBlock(s: State, n: nat, cfg: Config)
    requires s.Inv() && !s.failed && ClassOf(n) < CLASSES && |s.l.idle[ClassOf(n)]| > 0
    ensures AddsBlock(s, AllocateSmall(s, n, cfg))
  {
    hide Bytes, Layout.Tiled, Layout.Listed;
    ReuseIsOk(s, n);
    ReuseBytes(s, n, InLost);
    ReuseBytes(s, n, InLive);
  }

  lemma AllocationBytes(s: State, n: nat, small: bool, cfg: Config, inPlace: bool)
    requires s.Inv()
    ensures AddsBlock(s, Allocation(s, n, small, cfg, inPlace))
  {
    hide Carve, Bytes;
    if n != 0 && !s.failed {
      if small && cfg.bitmaps && ClassOf(n) < CLASSES {
        if |s.l.idle[ClassOf(n)]| > 0 {
          ReuseAddsBlock(s, n, cfg);
        } else {
          CarveAddsBlock(s, ClassSize(ClassOf(n)), Small(n), cfg, true);
        }
      } else {
        CarveAddsBlock(s, Align8(n), Regular, cfg, inPlace && n <= s.l.full);
      }
    }
  }

  /** The bytes freeing the block at p loses. */
  ghost function Loss(s: State, p: nat): nat
    requires s.Inv() && LiveAt(s.l, p)
  {
    var o := p - HEADER;
    if s.failed then s.l.tiles[o].len
    else if s.l.tiles[o].kind.Regular? && ShortTail(Mark(s.l, o, Lost), o) then HEADER
    else 0
  }

  lemma ReleaseBytes(s: State, p: nat)
    requires s.Inv() && LiveAt(s.l, p)
    ensures Bytes(Release(s, p).l, InLost) == Bytes(s.l, InLost) + Loss(s, p)
    ensures Bytes(Release(s, p).l, InLive) + s.l.tiles[p - HEADER].len == Bytes(s.l, InLive)
  {
    var o := p - HEADER;
    MarkInv(s.l, o, Lost);
    var m := Mark(s.l, o, Lost);
    RetagBytes(s.l, m, o, InLost);
    RetagBytes(s.l, m, o, InLive);
    var k := s.l.tiles[o].kind;
    assert s.l.TileOk(o);
    hide Bytes, Insert, Layout.Tiled, Layout.Listed;
    if !s.failed {
      if k.Small? {
        PushIdleInv(m, ClassOf(k.size), o);
        RetagBytes(m, PushIdle(m, ClassOf(k.size), o), o, InLost);
        RetagBytes(m, PushIdle(m, ClassOf(k.size), o), o, InLive);
      } else {
        InsertBytes(m, o, InLost);
        InsertBytes(m, o, InLive);
      }
    }
  }

  /** Whether the block at p cannot be resized where it is or into the free block below it. */
  ghost predicate NeedsMove(s: State, p: nat, n: nat, small: bool, cfg: Config)
    requires s.Inv() && LiveAt(s.l, p)
  {
    var t := s.l.tiles[p - HEADER];
    if t.kind.Small? then !(small && cfg.bitmaps && ClassOf(n) == ClassOf(t.kind.size))
    else !CanStay(s.l, p - HEADER, Align8(n))
  }

  /** The bytes resizing the block at p loses: those freeing it loses once its contents have moved. */
  ghost function ResizeLoss(s: State, p: nat, n: nat, small: bool, cfg: Config): nat
    requires s.Inv() && LiveAt(s.l, p)
  {
    var m := if s.l.tiles[p - HEADER].kind.Small? then n else Align8(n);
    AllocationIsOk(s, m, small, cfg, true);
    var r := Allocation(s, m, small, cfg, true);
    assert Live(s.l, p - HEADER);
    if NeedsMove(s, p, n, small, cfg) && r.Block? then Loss(r.s, p) else 0
  }

  /** t holds the block at q in place of s's block at p, and `loss` more bytes are lost. */
  ghost predicate Swapped(s: State, t: State, p: nat, q: nat, loss: nat) {
    && LiveAt(s.l, p) && LiveAt(t.l, q)
    && Bytes(t.l, InLost) == Bytes(s.l, InLost) + loss
    && Bytes(t.l, InLive) + s.l.tiles[p - HEADER].len == Bytes(s.l, InLive) + t.l.tiles[q - HEADER].len
  }

  lemma MovedBytes(s: State, p: nat, n: nat, small: bool, cfg: Config)
    requires s.Inv() && LiveAt(s.l, p)
    ensures var r := Moved(s, p, n, small, cfg); var a := Allocation(s, n, small, cfg, true);
      && (r.Block? ==> a.Block? && a.s.Inv() && LiveAt(a.s.l, p) && Swapped(s, r.s, p, r.p, Loss(a.s, p)))
      && (r.Null? && !r.s.failed ==>
        Bytes(r.s.l, InLost) == Bytes(s.l, InLost)
        && Bytes(r.s.l, InLive) == Bytes(s.l, InLive))
  {
    hide Allocation, Release, Layout.Inv, Bytes, Loss;
    AllocationIsOk(s, n, small, cfg, true);
    AllocationBytes(s, n, small, cfg, true);
    var a := Allocation(s, n, small, cfg, true);
    if a.Block? {
      assert Live(s.l, p - HEADER);
      ReleaseIsOk(a.s, p);
      ReleaseBytes(a.s, p);
      assert Live(a.s.l, a.p - HEADER);
    }
  }

  /** The rest of a block that shrinks follows the block, so no free block ends where it starts. */
  lemma ShrinkRest(l: Layout, o: nat, size: nat)
    requires l.Inv() && Live(l, o) && l.tiles[o].kind.Regular?
    requires size % 8 == 0 && size + 2 * HEADER <= l.tiles[o].len
    ensures var m := Mark(Cut(Mark(l, o, Lost), o, size + HEADER), o, Regular); var t := o + HEADER + size;
      && m.Inv() && t in m.tiles && m.tiles[t] == Tile(l.tiles[o].len - size - HEADER, Lost) && !ShortTail(m, t)
  {
    MarkInv(l, o, Lost);
    CutInv(Mark(l, o, Lost), o, size + HEADER);
    var c := Cut(Mark(l, o, Lost), o, size + HEADER);
    MarkInv(c, o, Regular);
    var m := Mark(c, o, Regular);
    var i := Below(m.free, o + HEADER + size);
    if i > 0 { assert m.FreeAt(i - 1) && m.Apart(m.free[i - 1], o) && m.Apart(o, m.free[i - 1]); }
  }

  lemma ShrinkRestBytes(l: Layout, o: nat, size: nat, u: Use)
    requires l.Inv() && Live(l, o) && l.tiles[o].kind.Regular?
    requires size % 8 == 0 && size + 2 * HEADER <= l.tiles[o].len
    ensures var m := Mark(Cut(Mark(l, o, Lost), o, size + HEADER), o, Regular);
      Bytes(m, u) + (if u.InLive? then l.tiles[o].len - size - HEADER else 0)
        == Bytes(l, u) + (if u.InLost? then l.tiles[o].len - size - HEADER else 0)
  {
    MarkInv(l, o, Lost);
    var k := Mark(l, o, Lost);
    RetagBytes(l, k, o, u);
    CutInv(k, o, size + HEADER);
    CutBytes(k, o, size + HEADER, u);
    var c := Cut(k, o, size + HEADER);
    MarkInv(c, o, Regular);
    RetagBytes(c, Mark(c, o, Regular), o, u);
  }

  lemma ShrinkBytes(s: State, o: nat, size: nat, u: Use)
    requires s.Inv() && !s.failed && Live(s.l, o) && s.l.tiles[o].kind.Regular?
    requires size % 8 == 0 && size + 2 * HEADER <= s.l.tiles[o].len
    ensures Bytes(Shrink(s, o, size).l, u) + (if u.InLive? then s.l.tiles[o].len - size - HEADER else 0)
         == Bytes(s.l, u) + (if u.InFree? then s.l.tiles[o].len - size - HEADER else 0)
  {
    ShrinkRest(s.l, o, size);
    ShrinkRestBytes(s.l, o, size, u);
    hide Layout.Tiled, Layout.Listed, Bytes, ShortTail, Insert;
    InsertBytes(Mark(Cut(Mark(s.l, o, Lost), o, size + HEADER), o, Regular), o + HEADER + size, u);
  }

  lemma ExpandUpBytes(l: Layout, i: nat, o: nat, more: nat, u: Use)
    requires l.Inv() && Live(l, o) && l.tiles[o].kind.Regular? && JoinsAbove(l, i, o)
    requires 0 < more && more % 8 == 0 && more + HEADER <= l.tiles[l.free[i]].len
    ensures Bytes(ExpandUp(l, i, o, more), u) + (if u.InFree? then more else 0)
        == Bytes(l, u) + (if u.InLive? then more else 0)
  {
    var f := l.free[i];
    MarkInv(l, o, Lost);
    var m := Mark(l, o, Lost);
    RetagBytes(l, m, o, u);
    HoldInv(m, i);
    RetagBytes(m, Hold(m, i), f, u);
    assert m.TileOk(f) && m.TileOk(o);
    HeldBetween(m, i);
    ExpandRestBytes(m, l, i, o, more, u);
  }

  lemma ExpandRestBytes(m: Layout, l: Layout, i: nat, o: nat, more: nat, u: Use)
    requires l.Inv() && Live(l, o) && l.tiles[o].kind.Regular? && JoinsAbove(l, i, o) && l.TileOk(l.free[i])
    requires l.TileOk(o)
    requires 0 < more && more % 8 == 0 && more + HEADER <= l.tiles[l.free[i]].len
    requires m == Mark(l, o, Lost) && m.Inv() && Hold(m, i).Inv()
    requires (i > 0 ==> m.free[i - 1] < l.free[i]) && (i + 1 < |m.free| ==> m.End(m.free[i]) <= m.free[i + 1])
    ensures Bytes(ExpandUp(l, i, o, more), u) + (if u.InLost? then l.tiles[o].len + l.tiles[l.free[i]].len else 0)
         == Bytes(Hold(m, i), u) + (if u.InLive? then l.tiles[o].len + more else 0)
           + (if u.InFree? then l.tiles[l.free[i]].len - more else 0)
  {
    hide Layout.Tiled, Layout.Listed, Bytes;
    ExpandUpIsOk(l, i, o, more);
    var f := l.free[i];
    PortionBytes(Hold(m, i), i, f, more, Lost, u);
    var g := Portion(Hold(m, i), i, f, more, Lost);
    FuseBytes(g, o, u);
    RetagBytes(Fuse(g, o), ExpandUp(l, i, o, more), o, u);
  }

  lemma SlideDownBytes(l: Layout, i: nat, o: nat, size: nat, u: Use)
    requires l.Inv() && Live(l, o) && l.tiles[o].kind.Regular? && JoinsBelow(l, i, o)
    requires size % 8 == 0 && l.tiles[o].len < size + HEADER <= l.tiles[l.free[i - 1]].len + l.tiles[o].len
    ensures Bytes(SlideDown(l, i, o, size), u) + (if u.InFree? then size + HEADER - l.tiles[o].len else 0)
         == Bytes(l, u) + (if u.InLive? then size + HEADER - l.tiles[o].len else 0)
  {
    hide Layout.Tiled, Layout.Listed, Bytes, Portion;
    SlideJoin(l, i, o);
    HeldBetween(l, i - 1);
    if i > 1 { HeldBetween(l, i - 2); }
    MarkInv(l, o, Lost);
    var m := Mark(l, o, Lost);
    RetagBytes(l, m, o, u);
    HeldFuseBytes(m, i, o, u);
    PortionBytes(Fuse(Hold(m, i - 1), l.free[i - 1]), i - 1, l.free[i - 1], size + HEADER, Regular, u);
  }

  /** Resizing changes the allocated bytes by the change of the block, and loses only what freeing the old one does. */
  lemma ReallocationBytes(s: State, p: nat, n: nat, small: bool, cfg: Config)
    requires s.Inv() && !s.failed && LiveAt(s.l, p)
    ensures var r := Reallocation(s, p, n, small, cfg);
      && (r.Block? ==> Swapped(s, r.s, p, r.p, ResizeLoss(s, p, n, small, cfg)))
      && (r.Null? && !r.s.failed ==>
        Bytes(r.s.l, InLost) == Bytes(s.l, InLost)
        && Bytes(r.s.l, InLive) == Bytes(s.l, InLive))
  {
    hide Layout.Tiled, Layout.Listed, Bytes, Allocation, Align8, Moved, Loss, CanStay, Resized, Swapped;
    var o := p - HEADER;
    var t := s.l.tiles[o];
    if NeedsMove(s, p, n, small, cfg) {
      AllocationIsOk(s, if t.kind.Small? then n else Align8(n), small, cfg, true);
      MovedBytes(s, p, if t.kind.Small? then n else Align8(n), small, cfg);
    } else if t.kind.Small? {
      InClassBytes(s, p, n);
    } else {
      Align8Multiple(n);
      StayBytes(s, p, Align8(n));
    }
  }

  lemma InClassBytes(s: State, p: nat, n: nat)
    requires s.Inv() && LiveAt(s.l, p) && s.l.tiles[p - HEADER].kind.Small?
    requires ClassOf(n) == ClassOf(s.l.tiles[p - HEADER].kind.size)
    ensures Swapped(s, s.(l := Mark(s.l, p - HEADER, Small(n))), p, p, 0)
  {
    var o := p - HEADER;
    hide Layout.Listed, Bytes;
    assert s.l.TileOk(o);
    MarkInv(s.l, o, Small(n));
    RetagBytes(s.l, Mark(s.l, o, Small(n)), o, InLost);
    RetagBytes(s.l, Mark(s.l, o, Small(n)), o, InLive);
  }

  lemma StayBytes(s: State, p: nat, size: nat)
    requires s.Inv() && !s.failed && LiveAt(s.l, p) && s.l.tiles[p - HEADER].kind.Regular?
    requires size % 8 == 0 && CanStay(s.l, p - HEADER, size)
    ensures var r := Resized(s, p - HEADER, size); r.Block? && Swapped(s, r.s, p, r.p, 0)
  {
    hide State.Inv, Swapped, ExpandUp, SlideDown, Shrink;
    var o := p - HEADER;
    var more := size + HEADER - s.l.tiles[o].len;
    TileIsOk(s, o);
    if more < 0 {
      ShrinkSwaps(s, o, size);
    } else if more > 0 {
      if CanExpandUp(s.l, o, more) { ExpandSwaps(s, o, more); } else { SlideSwaps(s, o, size); }
    } else {
      SwapNothing(s, p);
    }
  }

  lemma SwapNothing(s: State, p: nat)
    requires LiveAt(s.l, p)
    ensures Swapped(s, s, p, p, 0)
  {
  }

  lemma ShrinkSwaps(s: State, o: nat, size: nat)
    requires s.Inv() && !s.failed && Live(s.l, o) && s.l.tiles[o].kind.Regular?
    requires size % 8 == 0 && size + HEADER < s.l.tiles[o].len
    ensures s.l.TileOk(o) && Swapped(s, Shrink(s, o, size), o + HEADER, o + HEADER, 0)
  {
    assert s.l.TileOk(o);
    ShrinkIsOk(s, o, size);
    ShrinkBytes(s, o, size, InLost);
    ShrinkBytes(s, o, size, InLive);
  }

  lemma ExpandSwaps(s: State, o: nat, more: nat)
    requires s.Inv() && Live(s.l, o) && s.l.tiles[o].kind.Regular? && 0 < more && more % 8 == 0
    requires CanExpandUp(s.l, o, more)
    ensures var i := Below(s.l.free, o);
      Swapped(s, s.(l := ExpandUp(s.l, i, o, more), hwm := Max(s.hwm, s.l.free[i] + more)), o + HEADER, o + HEADER, 0)
  {
    hide Bytes, ExpandUp, Layout.Tiled, Layout.Listed;
    var i := Below(s.l.free, o);
    ExpandUpIsOk(s.l, i, o, more);
    ExpandUpBytes(s.l, i, o, more, InLost);
    ExpandUpBytes(s.l, i, o, more, InLive);
  }

  lemma SlideSwaps(s: State, o: nat, size: nat)
    requires s.Inv() && Live(s.l, o) && s.l.tiles[o].kind.Regular? && size % 8 == 0
    requires s.l.tiles[o].len < size + HEADER && CanSlideDown(s.l, o, size + HEADER - s.l.tiles[o].len)
    ensures var i := Below(s.l.free, o);
      Swapped(s, s.(l := SlideDown(s.l, i, o, size)), o + HEADER, s.l.free[i - 1] + HEADER, 0)
  {
    hide Bytes, SlideDown, Layout.Tiled, Layout.Listed;
    var i := Below(s.l.free, o);
    SlideDownIsOk(s.l, i, o, size);
    SlideDownBytes(s.l, i, o, size, InLost);
    SlideDownBytes(s.l, i, o, size, InLive);
  }

  // ---- Runs ----

  datatype Op = Get(n: nat, small: bool) | Put(p: nat) | Resize(p: nat, n: nat, small: bool)

  datatype Option<T> = None | Some(value: T)

  /** The block an operation frees or resizes is an allocated one. */
  ghost predicate Legal(s: State, op: Op) {
    op.Get? || LiveAt(s.l, op.p)
  }

  /** The state after an operation, if the process goes on. */
  ghost function Step(s: State, op: Op, cfg: Config): (r: Option<State>)
    requires s.Inv() && Legal(s, op)
    ensures r.Some? ==> r.value.Inv()
  {
    hide State.Inv, Allocation, Reallocation, Release;
    match op
    case Get(n, small) => AllocationIsOk(s, n, small, cfg, true); After(Allocation(s, n, small, cfg, true))
    case Put(p) => ReleaseIsOk(s, p); Some(Release(s, p))
    case Resize(p, n, small) => ReallocationIsOk(s, p, n, small, cfg); After(Reallocation(s, p, n, small, cfg))
  }

  ghost function After(r: Outcome): Option<State> {
    if r.Aborted? then None else Some(r.s)
  }

  /** The state after a run, if every operation of it was legal and the process went on. */
  ghost function Run(s: State, ops: seq<Op>, cfg: Config): (r: Option<State>)
    requires s.Inv()
    ensures r.Some? ==> r.value.Inv()
    decreases |ops|
  {
    hide State.Inv, Step;
    if ops == [] then Some(s)
    else if !Legal(s, ops[0]) then None
    else
      var r := Step(s, ops[0], cfg);
      if r.None? then None else Run(r.value, ops[1..], cfg)
  }

  /** The buffer a constructor makes: all free past its header. */
  function Fresh(start: nat, full: nat): State
    requires start <= full
  {
    State(Layout(start, full, map[start := Tile(full - start, Free)], [start], [[], [], [], []]), start, false)
  }

  lemma FreshInv(start: nat, full: nat)
    requires 0 < start && start % 8 == 0 && full % 8 == 0 && start + HEADER <= full
    ensures Fresh(start, full).Inv()
  {
    var l := Fresh(start, full).l;
    assert l.free[0] == start;
  }

  // ---- In every reachable state ----

  /**
  Blocks of every kind are aligned to 8 bytes, inside the buffer past its header and apart from each
  other; the free list ascends; and the size word of a small block leads back to the size of its class.
  */
  lemma RunKeepsBlocksApart(start: nat, full: nat, ops: seq<Op>, cfg: Config, a: nat, b: nat)
    requires 0 < start && start % 8 == 0 && full % 8 == 0 && start + HEADER <= full
    requires Fresh(start, full).Inv() && Run(Fresh(start, full), ops, cfg).Some?
    ensures var l := Run(Fresh(start, full), ops, cfg).value.l;
      && (a in l.tiles ==> l.start <= a && a % 8 == 0 && a + HEADER <= l.End(a) <= l.full)
      && (a in l.tiles && b in l.tiles && a != b ==> l.End(a) <= b || l.End(b) <= a)
      && (forall i, j :: 0 <= i < j < |l.free| ==> l.free[i] < l.free[j])
      && (a in l.tiles && l.tiles[a].kind.Small? ==>
        ClassOf(l.tiles[a].kind.size) < CLASSES && l.End(a) == a + HEADER + ClassSize(ClassOf(l.tiles[a].kind.size)))
  {
    var l := Run(Fresh(start, full), ops, cfg).value.l;
    assert a in l.tiles ==> l.TileOk(a);
    assert l.Apart(a, b) && l.Apart(b, a);
  }

  ghost function StepLoss(s: State, op: Op, cfg: Config): nat
    requires s.Inv() && Legal(s, op)
  {
    match op
    case Get(_, _) => 0
    case Put(p) => Loss(s, p)
    case Resize(p, n, small) => ResizeLoss(s, p, n, small, cfg)
  }

  /** How many times a run frees a block that ends past a last free block it touches. */
  ghost function TailMerges(s: State, ops: seq<Op>, cfg: Config): nat
    requires s.Inv() && Run(s, ops, cfg).Some?
    decreases |ops|
  {
    if ops == [] then 0
    else (if StepLoss(s, ops[0], cfg) > 0 then 1 else 0) + TailMerges(Step(s, ops[0], cfg).value, ops[1..], cfg)
  }

  lemma StepBytes(s: State, op: Op, cfg: Config)
    requires s.Inv() && !s.failed && Legal(s, op) && Step(s, op, cfg).Some? && !Step(s, op, cfg).value.failed
    ensures Bytes(Step(s, op, cfg).value.l, InLost) == Bytes(s.l, InLost) + StepLoss(s, op, cfg)
    ensures StepLoss(s, op, cfg) in {0, HEADER}
  {
    match op
    case Get(n, small) =>
      hide State.Inv, Allocation, Bytes;
      AllocationBytes(s, n, small, cfg, true);
    case Put(p) =>
      ReleaseBytes(s, p);
    case Resize(p, n, small) =>
      ReallocationBytes(s, p, n, small, cfg);
      ResizeNull(s, p, n, small, cfg);
  }

  /** A resize that gives no block frees none. */
  lemma ResizeNull(s: State, p: nat, n: nat, small: bool, cfg: Config)
    requires s.Inv() && !s.failed && LiveAt(s.l, p)
    ensures ResizeLoss(s, p, n, small, cfg) in {0, HEADER}
    ensures !Reallocation(s, p, n, small, cfg).Block? ==> ResizeLoss(s, p, n, small, cfg) == 0
  {
    var m := if s.l.tiles[p - HEADER].kind.Small? then n else Align8(n);
    AllocationIsOk(s, m, small, cfg, true);
    hide State.Inv, Allocation, Align8;
  }

  // ---- A failure stays ----

  lemma StepKeepsFailure(s: State, op: Op, cfg: Config)
    requires s.Inv() && s.failed && Legal(s, op) && Step(s, op, cfg).Some?
    ensures Step(s, op, cfg).value.failed
  {
    if op.Resize? {
      ReallocationIsOk(s, op.p, op.n, op.small, cfg);
      FailedReallocation(s, op.p, op.n, op.small, cfg);
    }
  }

  lemma FailedReallocation(s: State, p: nat, n: nat, small: bool, cfg: Config)
    requires s.Inv() && s.failed && LiveAt(s.l, p)
    ensures Reallocation(s, p, n, small, cfg) == Null(s)
      || (Reallocation(s, p, n, small, cfg).Block? && Reallocation(s, p, n, small, cfg).p == p
        && Reallocation(s, p, n, small, cfg).s.failed)
  {
    hide Insert, Layout.Tiled, Layout.Listed;
    AllocationIsOk(s, n, small, cfg, true);
    AllocationIsOk(s, Align8(n), small, cfg, true);
  }

  /** After a failure every allocation gives null and the lists stay empty, whatever is freed or resized. */
  lemma {:induction false} FailureIsSticky(s: State, ops: seq<Op>, cfg: Config, n: nat, small: bool, inPlace: bool)
    requires s.Inv() && s.failed && Run(s, ops, cfg).Some?
    ensures var t := Run(s, ops, cfg).value;
      && t.failed && t.l.free == [] && (forall c :: 0 <= c < CLASSES ==> t.l.idle[c] == [])
      && Allocation(t, n, small, cfg, inPlace) == Null(t)
    decreases |ops|
  {
    if ops != [] {
      StepKeepsFailure(s, ops[0], cfg);
      hide Step;
      FailureIsSticky(Step(s, ops[0], cfg).value, ops[1..], cfg, n, small, inPlace);
    }
  }

  /**
  Every byte of the buffer is in its header, a free block, an allocated block, a class list or lost; and
  until an allocation fails, what is lost is 8 bytes for each time a freed block joined the last free
  block with none above.
  */
  lemma {:induction false} RunConservesBytes(s: State, ops: seq<Op>, cfg: Config)
    requires s.Inv() && Run(s, ops, cfg).Some?
    ensures var l := Run(s, ops, cfg).value.l;
      l.start + Bytes(l, InFree) + Bytes(l, InLive) + Bytes(l, InIdle) + Bytes(l, InLost) == l.full
    ensures !Run(s, ops, cfg).value.failed ==>
      Bytes(Run(s, ops, cfg).value.l, InLost) == Bytes(s.l, InLost) + HEADER * TailMerges(s, ops, cfg)
    decreases |ops|
  {
    hide Bytes, Step;
    WalkCovers(Run(s, ops, cfg).value.l, Run(s, ops, cfg).value.l.start);
    BytesAre(Run(s, ops, cfg).value.l);
    if ops != [] {
      var t := Step(s, ops[0], cfg).value;
      RunConservesBytes(t, ops[1..], cfg);
      if !Run(s, ops, cfg).value.failed {
        if t.failed { FailureIsSticky(t, ops[1..], cfg, 0, false, false); }
        if s.failed { StepKeepsFailure(s, ops[0], cfg); }
        StepBytes(s, ops[0], cfg);
      }
    }
  }

  lemma BytesAre(l: Layout)
    ensures forall u :: Bytes(l, u) == Walk(l.tiles, l.start, l.full, u)
  {
  }

  // ---- The inline cases ----

  /** When the inline cases serve an allocation. */
  ghost predicate InlineFits(s: State, n: nat, small: bool, cfg: Config)
    requires s.Inv()
  {
    var c := if small && cfg.bitmaps then ClassOf(n) else CLASSES;
    && 0 < n <= s.l.full
    && ((c < CLASSES && s.l.idle[c] != [])
      || (s.l.free != [] && s.l.free[0] in s.l.tiles
        && s.l.tiles[s.l.free[0]].len >= (if c < CLASSES then ClassSize(c) else Align8(n)) + 2 * HEADER))
  }

  /**
  The inline cases give the block, the lists and the size word that the general first fit gives; only
  the high-water mark can differ, by a rest of 8 bytes that ends the buffer.
  */
  lemma InlineIsFirstFit(s: State, n: nat, small: bool, cfg: Config)
    requires s.Inv() && InlineFits(s, n, small, cfg) && !s.failed
    ensures var a := Allocation(s, n, small, cfg, true); var b := Allocation(s, n, small, cfg, false);
      && a.Block? && b.Block? && a.p == b.p && a.s.l == b.s.l && a.s.failed == b.s.failed
      && (a.s.hwm == b.s.hwm || (a.s.hwm == Max(s.hwm, s.l.full) && b.s.hwm == s.hwm))
  {
    assert |s.l.free| > 0 ==> s.l.FreeAt(0) && s.l.TileOk(s.l.free[0]);
  }

  /** When the inline cases do not serve an allocation, that they were tried changes nothing. */
  lemma InlineMissChangesNothing(s: State, n: nat, small: bool, cfg: Config)
    requires s.Inv() && !InlineFits(s, n, small, cfg)
    ensures Allocation(s, n, small, cfg, true) == Allocation(s, n, small, cfg, false)
  {
    hide Layout.Tiled, Align8;
    assert |s.l.free| > 0 ==> s.l.FreeAt(0);
  }

  lemma FullIsMultiple(l: Layout)
    requires l.Inv() && 0 < l.full
    ensures l.full % 8 == 0 && 2 * l.full % 8 == 0 && l.full >= HEADER
  {
  }

  /** However little of the buffer is free, growing it twice makes room. */
  lemma TwoGrowthsSuffice(l: Layout, need: nat)
    requires l.Inv() && 0 < l.full
    ensures var f1 := Doubled(2 * l.full, need);
      && Grow(l, f1).Inv() && Grow(l, f1).full == f1
      && var f2 := Doubled(2 * f1, need);
      && Grow(Grow(l, f1), f2).Inv()
      && FirstFit(Grow(Grow(l, f1), f2), need, 0) < |Grow(Grow(l, f1), f2).free|
  {
    FullIsMultiple(l);
    hide Layout.Tiled, Layout.Listed, Grow;
    var f1 := Doubled(2 * l.full, need);
    GrowInv(l, f1);
    var l1 := Grow(l, f1);
    var f2 := Doubled(2 * f1, need);
    FullIsMultiple(l1);
    GrowInv(l1, f2);
    var l2 := Grow(l1, f2);
    assert l2.tiles[l2.free[|l2.free| - 1]].len >= need;
  }
}
