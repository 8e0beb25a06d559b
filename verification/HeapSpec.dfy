/**
What each heap operation does to the abstract state of the buffer, and that it keeps the partition
invariant.
*/
module HeapSpec {
  import opened Layouts

  /** What is fixed for a buffer's life: its kind of heap and the largest size its resizer supplies. */
  datatype Config = Config(bitmaps: bool, movable: bool, limit: nat)

  datatype State = State(l: Layout, hwm: nat, failed: bool) {
    ghost predicate Inv() {
      && l.Inv()
      && 0 < l.start <= l.full
      && (failed ==> l.free == [] && forall c :: 0 <= c < CLASSES ==> l.idle[c] == [])
    }
  }

  /** A block at offset p, no block, or the end of the process, which a resizer without memory calls. */
  datatype Outcome = Block(p: nat, s: State) | Null(s: State) | Aborted

  ghost predicate Live(l: Layout, o: nat) {
    o in l.tiles && (l.tiles[o].kind.Regular? || l.tiles[o].kind.Small?)
  }

  /** p is the offset of an allocated block's first byte. */
  ghost predicate LiveAt(l: Layout, p: nat) {
    p >= HEADER && Live(l, p - HEADER)
  }

  function Max(a: nat, b: nat): nat {
    if a < b then b else a
  }

  // ---- First fit ----

  /** The first block of the free list with `need` bytes, counting from i, or the length of the list. */
  ghost function FirstFit(l: Layout, need: nat, i: nat): (r: nat)
    requires l.Inv() && i <= |l.free|
    ensures i <= r <= |l.free|
    ensures forall j :: i <= j < r ==> l.free[j] in l.tiles && l.tiles[l.free[j]].len < need
    ensures r < |l.free| ==> l.FreeAt(r) && l.tiles[l.free[r]].len >= need
    decreases |l.free| - i
  {
    if i == |l.free| then i
    else (assert l.FreeAt(i);
          if l.tiles[l.free[i]].len >= need then i else FirstFit(l, need, i + 1))
  }

  /** Past the first `need` bytes of the unlisted tile at f, a rest of at least a header is free block i. */
  ghost function Rest(l: Layout, i: nat, f: nat, need: nat): (r: Layout)
    requires i <= |l.free| && f in l.tiles && need <= l.tiles[f].len
    ensures f in r.tiles
  {
    if l.tiles[f].len - need >= HEADER then Give(Cut(l, f, need), i, f + need) else l
  }

  /** Allocates the first `need` bytes of the unlisted tile at f. */
  ghost function Portion(l: Layout, i: nat, f: nat, need: nat, kind: Kind): Layout
    requires i <= |l.free| && f in l.tiles && need <= l.tiles[f].len
  {
    Mark(Rest(l, i, f, need), f, kind)
  }

  /** Takes `need` bytes from the start of free block i; a rest of at least a header stays free. */
  ghost function Take(l: Layout, i: nat, need: nat, kind: Kind): Layout
    requires i < |l.free| && l.free[i] in l.tiles && need <= l.tiles[l.free[i]].len
  {
    Portion(Hold(l, i), i, l.free[i], need, kind)
  }

  /** The mark after Take(): the rest's header counts as used, and so does the next block's if there is no rest. */
  ghost function TakeHwm(l: Layout, i: nat, need: nat, hwm: nat, inPlace: bool): nat
    requires i < |l.free| && l.free[i] in l.tiles && need <= l.tiles[l.free[i]].len
  {
    var f := l.free[i];
    if l.tiles[f].len - need >= HEADER then
      if (inPlace && i == 0) || f + need + HEADER < l.full then Max(hwm, f + need + HEADER) else hwm
    else Max(hwm, LinkAt(l.free, i + 1) + HEADER)
  }

  lemma GiveAfterCut(l: Layout, i: nat, f: nat, need: nat)
    requires l.Inv() && f in l.tiles && l.tiles[f].kind.Lost? && i <= |l.free|
    requires HEADER <= need && need + HEADER <= l.tiles[f].len && need % 8 == 0
    requires (i > 0 ==> l.free[i - 1] < f) && (i < |l.free| ==> l.End(f) <= l.free[i])
    ensures Cut(l, f, need).Inv() && Give(Cut(l, f, need), i, f + need).Inv() && f + need !in l.tiles
  {
    CutInv(l, f, need);
    GiveInv(Cut(l, f, need), i, f + need);
  }

  lemma PortionInv(l: Layout, i: nat, f: nat, need: nat, kind: Kind)
    requires l.Inv() && f in l.tiles && l.tiles[f].kind.Lost? && i <= |l.free|
    requires HEADER <= need <= l.tiles[f].len && need % 8 == 0
    requires (i > 0 ==> l.free[i - 1] < f) && (i < |l.free| ==> l.End(f) <= l.free[i])
    requires Unlisted(kind) && (kind.Small? ==> kind.size <= 128 && need == HEADER + ClassSize(ClassOf(kind.size)))
    ensures l.TileOk(f) && Portion(l, i, f, need, kind).Inv()
    ensures Portion(l, i, f, need, kind).tiles[f] == Tile(need, kind)
    ensures need + HEADER <= l.tiles[f].len ==> f + need !in l.tiles
  {
    assert l.TileOk(f);
    if l.tiles[f].len - need >= HEADER {
      GiveAfterCut(l, i, f, need);
      MarkInv(Give(Cut(l, f, need), i, f + need), f, kind);
    } else {
      MarkInv(l, f, kind);
    }
  }

  /** Where the tile of a free block taken off the list lies among those left on it. */
  lemma HeldBetween(l: Layout, i: nat)
    requires l.Inv() && i < |l.free|
    ensures l.FreeAt(i) && Hold(l, i).Inv() && Hold(l, i).free == l.free[..i] + l.free[i + 1..]
    ensures (i > 0 ==> l.free[i - 1] < l.free[i]) && (i + 1 < |l.free| ==> l.End(l.free[i]) <= l.free[i + 1])
  {
    HoldInv(l, i);
    if i + 1 < |l.free| { assert l.FreeAt(i + 1) && l.Apart(l.free[i], l.free[i + 1]); }
  }

  lemma TakeInv(l: Layout, i: nat, need: nat, kind: Kind)
    requires l.Inv() && i < |l.free| && l.free[i] in l.tiles
    requires HEADER <= need <= l.tiles[l.free[i]].len && need % 8 == 0
    requires kind.Regular? || (kind.Small? && kind.size <= 128 && need == HEADER + ClassSize(ClassOf(kind.size)))
    ensures Take(l, i, need, kind).Inv()
    ensures Take(l, i, need, kind).tiles[l.free[i]] == Tile(need, kind)
  {
    HeldBetween(l, i);
    PortionInv(Hold(l, i), i, l.free[i], need, kind);
  }

  // ---- Freeing ----

  /** How many blocks at the start of an ascending list lie below o. */
  ghost function Below(free: seq<nat>, o: nat): (i: nat)
    ensures i <= |free| && (i > 0 ==> free[i - 1] < o) && (i < |free| ==> o <= free[i])
    ensures forall k :: 0 <= k < i ==> free[k] < o
  {
    if free == [] || free[0] >= o then 0 else 1 + Below(free[1..], o)
  }

  lemma BelowUnique(free: seq<nat>, o: nat, i: nat)
    requires forall a, b :: 0 <= a < b < |free| ==> free[a] < free[b]
    requires i <= |free| && (i > 0 ==> free[i - 1] < o) && (i < |free| ==> o <= free[i])
    ensures i == Below(free, o)
  {
    assert forall k :: 0 <= k < i ==> free[k] < o;
  }

  /** Free block i - 1 ends where o starts. */
  ghost predicate JoinsBelow(l: Layout, i: nat, o: nat) {
    0 < i <= |l.free| && l.free[i - 1] in l.tiles && l.End(l.free[i - 1]) == o
  }

  /** Free block i starts where the tile at o ends. */
  ghost predicate JoinsAbove(l: Layout, i: nat, o: nat) {
    i < |l.free| && l.free[i] in l.tiles && o in l.tiles && l.End(o) == l.free[i]
  }

  /** The unlisted tile at o takes in free block i, which follows it. */
  ghost function TakeInAbove(l: Layout, i: nat, o: nat): Layout
    requires JoinsAbove(l, i, o)
  {
    Fuse(Hold(l, i), o)
  }

  /** Free block i - 1 takes in the unlisted tile at o, which follows it. */
  ghost function JoinBelow(l: Layout, i: nat, o: nat): Layout
    requires JoinsBelow(l, i, o) && o in l.tiles
  {
    Give(Fuse(Hold(l, i - 1), l.free[i - 1]), i - 1, l.free[i - 1])
  }

  /** JoinBelow() of all but the last 8 bytes, which stay unlisted. */
  ghost function JoinBelowShort(l: Layout, i: nat, o: nat): Layout
    requires JoinsBelow(l, i, o) && o in l.tiles && HEADER <= l.tiles[o].len
  {
    var q := l.free[i - 1];
    Give(Cut(Fuse(Hold(l, i - 1), q), q, l.tiles[q].len + l.tiles[o].len - HEADER), i - 1, q)
  }

  /**
  Puts the unlisted tile at o on the free list, joined with the free blocks it touches.  With no free
  block above it, the join with the block below leaves out 8 bytes: they are lost.
  */
  ghost function Insert(l: Layout, o: nat): Layout
    requires l.Inv() && o in l.tiles && l.tiles[o].kind.Lost?
  {
    var i := Below(l.free, o);
    if i == |l.free| then
      if JoinsBelow(l, i, o) then (assert l.TileOk(o); JoinBelowShort(l, i, o)) else Give(l, i, o)
    else
      var up := if JoinsAbove(l, i, o) then TakeInAbove(l, i, o) else l;
      if JoinsBelow(up, i, o) then JoinBelow(up, i, o) else Give(up, i, o)
  }

  ghost function FreeBlock(l: Layout, o: nat): Layout
    requires l.Inv() && Live(l, o)
  {
    MarkInv(l, o, Lost);
    Insert(Mark(l, o, Lost), o)
  }

  lemma TakeInAboveInv(l: Layout, i: nat, o: nat)
    requires l.Inv() && JoinsAbove(l, i, o) && l.tiles[o].kind.Lost?
    ensures var r := TakeInAbove(l, i, o); r.Inv() && o in r.tiles && r.tiles[o].kind.Lost?
    ensures var r := TakeInAbove(l, i, o); r.free == l.free[..i] + l.free[i + 1..] && (i < |r.free| ==> o < r.free[i])
  {
    HoldInv(l, i);
    FuseInv(Hold(l, i), o);
    assert l.TileOk(o);
  }

  lemma JoinBelowInv(l: Layout, i: nat, o: nat)
    requires l.Inv() && JoinsBelow(l, i, o) && o in l.tiles && l.tiles[o].kind.Lost?
    requires i < |l.free| ==> o < l.free[i]
    ensures JoinBelow(l, i, o).Inv()
  {
    var q := l.free[i - 1];
    HoldInv(l, i - 1);
    FuseInv(Hold(l, i - 1), q);
    assert l.TileOk(q);
    GiveInv(Fuse(Hold(l, i - 1), q), i - 1, q);
  }

  lemma JoinBelowShortInv(l: Layout, i: nat, o: nat)
    requires l.Inv() && JoinsBelow(l, i, o) && o in l.tiles && l.tiles[o].kind.Lost? && i == |l.free|
    ensures l.TileOk(o)
    ensures JoinBelowShort(l, i, o).Inv()
  {
    hide Layout.Tiled, Layout.Listed;
    var q := l.free[i - 1];
    HeldBetween(l, i - 1);
    if i > 1 { HeldBetween(l, i - 2); }
    FuseInv(Hold(l, i - 1), q);
    TileAt(l, q);
    TileAt(l, o);
    var g := Fuse(Hold(l, i - 1), q);
    var len := l.tiles[q].len + l.tiles[o].len - HEADER;
    CutInv(g, q, len);
    GiveInv(Cut(g, q, len), i - 1, q);
  }

  lemma InsertInv(l: Layout, o: nat)
    requires l.Inv() && o in l.tiles && l.tiles[o].kind.Lost?
    ensures Insert(l, o).Inv()
  {
    var i := Below(l.free, o);
    assert l.FreeAt(i);
    if i == |l.free| {
      if JoinsBelow(l, i, o) { JoinBelowShortInv(l, i, o); } else { GiveInv(l, i, o); }
    } else {
      if JoinsAbove(l, i, o) { TakeInAboveInv(l, i, o); }
      var up := if JoinsAbove(l, i, o) then TakeInAbove(l, i, o) else l;
      if JoinsBelow(up, i, o) { JoinBelowInv(up, i, o); } else { GiveInv(up, i, o); }
    }
  }

  // ---- Growing ----

  /** The size the buffer is given: doubled until `need` bytes fit. */
  function Doubled(size: nat, need: nat): (r: nat)
    requires size > 0
    ensures r >= size && r >= need
    ensures size % 8 == 0 ==> r % 8 == 0
    decreases need - size
  {
    if size >= need then size else Doubled(2 * size, need)
  }

  /** The new bytes join a free block that ends the buffer, or are a free block of their own. */
  ghost function Grow(l: Layout, newFull: nat): Layout
    requires l.Inv() && l.full < newFull
  {
    var k := |l.free|;
    var e := Extend(l, newFull);
    if JoinsBelow(e, k, l.full) then JoinBelow(e, k, l.full) else Give(e, k, l.full)
  }

  lemma GrowInv(l: Layout, newFull: nat)
    requires l.Inv() && l.full + HEADER <= newFull && newFull % 8 == 0
    ensures Grow(l, newFull).Inv()
    ensures Grow(l, newFull).full == newFull
    ensures |Grow(l, newFull).free| > 0
    ensures var r := Grow(l, newFull); var q := r.free[|r.free| - 1];
      q in r.tiles && r.End(q) == newFull && r.tiles[q].len >= newFull - l.full
      && (JoinsBelow(l, |l.free|, l.full) ==> r.tiles[q].len == l.tiles[l.free[|l.free| - 1]].len + newFull - l.full)
  {
    var k := |l.free|;
    ExtendInv(l, newFull);
    var e := Extend(l, newFull);
    if k > 0 { assert l.FreeAt(k - 1) && l.TileOk(l.free[k - 1]); }
    if JoinsBelow(e, k, l.full) {
      JoinBelowInv(e, k, l.full);
    } else {
      GiveInv(e, k, l.full);
    }
  }

  /** The buffer after an allocation it has no room for: its lists are empty. */
  ghost function DropLists(l: Layout): Layout {
    l.(free := [], idle := [[], [], [], []],
      tiles := map o | o in l.tiles :: if Unlisted(l.tiles[o].kind) then l.tiles[o] else l.tiles[o].(kind := Lost))
  }

  ghost function Fail(s: State): State {
    State(DropLists(s.l), s.hwm, true)
  }

  lemma FailInv(s: State)
    requires s.Inv()
    ensures Fail(s).Inv()
  {
    var r := DropLists(s.l);
    forall o | o in r.tiles ensures r.TileOk(o) { assert s.l.TileOk(o); }
    forall a, b ensures r.Apart(a, b) { assert s.l.Apart(a, b); }
    assert s.l.start in r.tiles || s.l.start == s.l.full;
  }

  // ---- Allocating ----

  /**
  How many more times the buffer has to grow before `need` bytes fit: never more than twice, as the
  second growth always extends a block that ends the buffer.
  */
  ghost function Growths(l: Layout, need: nat): (r: nat)
    requires l.Inv()
    ensures r <= 2
  {
    if FirstFit(l, need, 0) < |l.free| then 0
    else if JoinsBelow(l, |l.free|, l.full) && l.full >= need then 1
    else 2
  }

  lemma GrowthsDecrease(l: Layout, need: nat, newFull: nat)
    requires l.Inv() && 0 < l.full && FirstFit(l, need, 0) == |l.free|
    requires newFull == Doubled(2 * l.full, need)
    ensures l.full + HEADER <= newFull && newFull % 8 == 0
    ensures Grow(l, newFull).Inv() && Grow(l, newFull).start == l.start && Grow(l, newFull).full == newFull
    ensures Growths(Grow(l, newFull), need) < Growths(l, need)
  {
    GrowInv(l, newFull);
    var r := Grow(l, newFull);
    assert r.FreeAt(|r.free| - 1);
    if Growths(l, need) == 1 {
      assert r.tiles[r.free[|r.free| - 1]].len >= need;
    }
  }

  /** Takes a block of `size` bytes for an allocation kept as `kind`, growing the buffer until it fits. */
  ghost function Carve(s: State, size: nat, kind: Kind, cfg: Config, inPlace: bool): Outcome
    requires s.Inv() && !s.failed
    decreases Growths(s.l, size + HEADER)
  {
    var need := size + HEADER;
    var i := FirstFit(s.l, need, 0);
    if i < |s.l.free| then
      Block(s.l.free[i] + HEADER, s.(l := Take(s.l, i, need, kind), hwm := TakeHwm(s.l, i, need, s.hwm, inPlace)))
    else if !cfg.movable then Null(Fail(s))
    else
      var newFull := Doubled(2 * s.l.full, need);
      if newFull > cfg.limit then Aborted
      else
        GrowthsDecrease(s.l, need, newFull);
        var g := s.(l := Grow(s.l, newFull));
        assert g.Inv();
        if size == 0 then Null(g) else Carve(g, size, kind, cfg, true)
  }

  /** A small block for n bytes: the first on the list of its class, or one taken from the free list. */
  ghost function AllocateSmall(s: State, n: nat, cfg: Config): Outcome
    requires s.Inv() && !s.failed && ClassOf(n) < CLASSES
  {
    var c := ClassOf(n);
    if |s.l.idle[c]| > 0 then
      assert s.l.IdleAt(c, 0);
      var p := s.l.idle[c][0];
      Block(p, s.(l := Mark(PopIdle(s.l, c), p - HEADER, Small(n))))
    else Carve(s, ClassSize(c), Small(n), cfg, true)
  }

  /** Allocates n bytes; `inPlace` says whether the inline cases have been tried. */
  ghost function Allocation(s: State, n: nat, small: bool, cfg: Config, inPlace: bool): Outcome
    requires s.Inv()
  {
    if n == 0 || s.failed then Null(s)
    else if small && cfg.bitmaps && ClassOf(n) < CLASSES then AllocateSmall(s, n, cfg)
    else Carve(s, Align8(n), Regular, cfg, inPlace && n <= s.l.full)
  }

  /** Frees the block at p.  Freeing in a buffer that has failed only drops it. */
  ghost function Release(s: State, p: nat): State
    requires s.Inv() && LiveAt(s.l, p)
  {
    var o := p - HEADER;
    var k := s.l.tiles[o].kind;
    if s.failed then s.(l := Mark(s.l, o, Lost))
    else if k.Small? then (assert s.l.TileOk(o); s.(l := PushIdle(Mark(s.l, o, Lost), ClassOf(k.size), o)))
    else s.(l := FreeBlock(s.l, o))
  }

  // ---- Resizing a block ----

  /** Gives back what is past the first `size` bytes of the regular block at o. */
  ghost function Shrink(s: State, o: nat, size: nat): State
    requires s.Inv() && Live(s.l, o) && s.l.tiles[o].kind.Regular?
    requires size % 8 == 0 && size + 2 * HEADER <= s.l.tiles[o].len
  {
    MarkInv(s.l, o, Lost);
    CutInv(Mark(s.l, o, Lost), o, size + HEADER);
    var c := Cut(Mark(s.l, o, Lost), o, size + HEADER);
    MarkInv(c, o, Regular);
    var m := Mark(c, o, Regular);
    s.(l := if s.failed then m else Insert(m, o + HEADER + size))
  }

  /** The regular block at o takes `more` bytes from the start of free block i, which follows it. */
  ghost function ExpandUp(l: Layout, i: nat, o: nat, more: nat): Layout
    requires JoinsAbove(l, i, o) && more <= l.tiles[l.free[i]].len
  {
    var f := l.free[i];
    Mark(Fuse(Portion(Hold(Mark(l, o, Lost), i), i, f, more, Lost), o), o, Regular)
  }

  /** The regular block at o moves down to free block i - 1, which it follows, to hold `size` bytes. */
  ghost function SlideDown(l: Layout, i: nat, o: nat, size: nat): Layout
    requires JoinsBelow(l, i, o) && o in l.tiles
    requires size + HEADER <= l.tiles[l.free[i - 1]].len + l.tiles[o].len
  {
    var f := l.free[i - 1];
    Portion(Fuse(Hold(Mark(l, o, Lost), i - 1), f), i - 1, f, size + HEADER, Regular)
  }

  /** The free block above has room for `more` bytes and, past them, more than a header. */
  ghost predicate CanExpandUp(l: Layout, o: nat, more: nat) {
    var i := Below(l.free, o);
    JoinsAbove(l, i, o) && l.tiles[l.free[i]].len > more + HEADER
  }

  /** The free block below has room for `more` bytes.  It is only looked for if a free block lies above. */
  ghost predicate CanSlideDown(l: Layout, o: nat, more: nat) {
    var i := Below(l.free, o);
    i < |l.free| && JoinsBelow(l, i, o) && l.tiles[l.free[i - 1]].len >= more
  }

  // ---- What every operation keeps ----

  /** Every allocated block of l but the one at `but` is the same block of r. */
  ghost predicate Keeps(l: Layout, r: Layout, but: int) {
    forall o {:trigger Live(l, o)} :: Live(l, o) && o != but ==> o in r.tiles && r.tiles[o] == l.tiles[o]
  }

  /** The two hold the same allocated blocks. */
  ghost predicate SameLive(l: Layout, r: Layout) {
    forall o {:trigger Live(l, o)} {:trigger Live(r, o)} :: Live(l, o) == Live(r, o)
      && (Live(l, o) ==> r.tiles[o] == l.tiles[o])
  }

  /** A new block: allocated in r, not in l, of `size` bytes after its header. */
  ghost predicate NewBlock(l: Layout, r: Layout, p: nat, size: nat) {
    LiveAt(r, p) && !LiveAt(l, p) && r.tiles[p - HEADER].len == HEADER + size
  }

  ghost predicate CarveOk(s: State, r: Outcome, size: nat, kind: Kind) {
    match r
    case Block(p, t) =>
      && t.Inv() && !t.failed && NewBlock(s.l, t.l, p, size) && t.l.tiles[p - HEADER].kind == kind
      && Keeps(s.l, t.l, -1) && t.l.full >= s.l.full
    case Null(t) => t.Inv() && Keeps(s.l, t.l, -1) && t.l.full >= s.l.full
    case Aborted => true
  }

  lemma TakeKeeps(l: Layout, i: nat, need: nat, kind: Kind)
    requires l.Inv() && i < |l.free| && l.free[i] in l.tiles && HEADER <= need <= l.tiles[l.free[i]].len
    ensures Keeps(l, Take(l, i, need, kind), -1)
    ensures !Live(l, l.free[i])
  {
    assert l.FreeAt(i);
    var f := l.free[i];
    forall o | Live(l, o) ensures o in Take(l, i, need, kind).tiles && Take(l, i, need, kind).tiles[o] == l.tiles[o] {
      assert l.Apart(f, o) && l.Apart(o, f);
    }
  }

  lemma InsideBuffer(l: Layout)
    requires l.Inv()
    ensures forall o :: o in l.tiles ==> l.start <= o && o + HEADER <= l.End(o) <= l.full
  {
    forall o | o in l.tiles ensures l.start <= o && o + HEADER <= l.End(o) <= l.full { assert l.TileOk(o); }
  }

  lemma GrowKeeps(l: Layout, newFull: nat)
    requires l.Inv() && l.full < newFull
    ensures SameLive(l, Grow(l, newFull))
  {
    if |l.free| > 0 { assert l.FreeAt(|l.free| - 1); }
    InsideBuffer(l);
  }

  lemma CarveTakes(s: State, i: nat, size: nat, kind: Kind, hwm: nat)
    requires s.Inv() && !s.failed && size % 8 == 0 && i < |s.l.free| && s.l.free[i] in s.l.tiles
    requires size + HEADER <= s.l.tiles[s.l.free[i]].len
    requires kind.Regular? || (kind.Small? && kind.size <= 128 && size == ClassSize(ClassOf(kind.size)))
    ensures CarveOk(s, Block(s.l.free[i] + HEADER, s.(l := Take(s.l, i, size + HEADER, kind), hwm := hwm)), size, kind)
  {
    TakeInv(s.l, i, size + HEADER, kind);
    TakeKeeps(s.l, i, size + HEADER, kind);
    assert Take(s.l, i, size + HEADER, kind).TileOk(s.l.free[i]);
  }

  lemma CarveOkAfter(s: State, g: State, r: Outcome, size: nat, kind: Kind)
    requires SameLive(s.l, g.l) && g.l.full >= s.l.full && CarveOk(g, r, size, kind)
    ensures CarveOk(s, r, size, kind)
  {
  }

  lemma CarveIsOk(s: State, size: nat, kind: Kind, cfg: Config, inPlace: bool)
    requires s.Inv() && !s.failed && size % 8 == 0
    requires kind.Regular? || (kind.Small? && kind.size <= 128 && size == ClassSize(ClassOf(kind.size)))
    ensures CarveOk(s, Carve(s, size, kind, cfg, inPlace), size, kind)
    decreases Growths(s.l, size + HEADER)
  {
    hide Take, TakeHwm, Grow, Layout.Tiled, Layout.Listed, DropLists;
    var need := size + HEADER;
    var i := FirstFit(s.l, need, 0);
    if i < |s.l.free| {
      CarveTakes(s, i, size, kind, TakeHwm(s.l, i, need, s.hwm, inPlace));
    } else if !cfg.movable {
      FailInv(s);
      DropKeeps(s.l);
    } else if Doubled(2 * s.l.full, need) <= cfg.limit {
      var newFull := Doubled(2 * s.l.full, need);
      GrowthsDecrease(s.l, need, newFull);
      GrowKeeps(s.l, newFull);
      var g := s.(l := Grow(s.l, newFull));
      if size != 0 {
        CarveIsOk(g, size, kind, cfg, true);
        CarveOkAfter(s, g, Carve(g, size, kind, cfg, true), size, kind);
      }
    }
  }

  lemma DropKeeps(l: Layout)
    ensures Keeps(l, DropLists(l), -1) && DropLists(l).full == l.full
  {
  }

  // ---- The same for allocating, freeing and resizing ----

  /** The allocated bytes of a block for n bytes whose kind is k. */
  function SizeFor(n: nat, k: Kind): nat {
    if k.Small? && ClassOf(n) < CLASSES then ClassSize(ClassOf(n)) else Align8(n)
  }

  ghost predicate AllocationOk(s: State, r: Outcome, n: nat) {
    match r
    case Block(p, t) =>
      && !s.failed && t.Inv() && !t.failed
      && LiveAt(t.l, p) && NewBlock(s.l, t.l, p, SizeFor(n, t.l.tiles[p - HEADER].kind))
      && Keeps(s.l, t.l, -1) && t.l.full >= s.l.full
      && (t.l.tiles[p - HEADER].kind.Small? ==> t.l.tiles[p - HEADER].kind.size == n)
    case Null(t) => t.Inv() && Keeps(s.l, t.l, -1) && t.l.full >= s.l.full
    case Aborted => true
  }

  lemma ReuseIsOk(s: State, n: nat)
    requires s.Inv() && !s.failed && ClassOf(n) < CLASSES && |s.l.idle[ClassOf(n)]| > 0
    ensures s.l.IdleAt(ClassOf(n), 0)
    ensures var c := ClassOf(n); var p := s.l.idle[c][0];
      AllocationOk(s, Block(p, s.(l := Mark(PopIdle(s.l, c), p - HEADER, Small(n)))), n)
  {
    var c := ClassOf(n);
    PopIdleInv(s.l, c);
    var p := s.l.idle[c][0];
    assert s.l.TileOk(p - HEADER);
    MarkInv(PopIdle(s.l, c), p - HEADER, Small(n));
  }

  lemma Align8Multiple(n: nat)
    ensures Align8(n) % 8 == 0
  {
  }

  lemma AllocationIsOk(s: State, n: nat, small: bool, cfg: Config, inPlace: bool)
    requires s.Inv()
    ensures AllocationOk(s, Allocation(s, n, small, cfg, inPlace), n)
  {
    Align8Multiple(n);
    hide Carve, Layout.Tiled, Align8;
    if n != 0 && !s.failed {
      if small && cfg.bitmaps && ClassOf(n) < CLASSES {
        if |s.l.idle[ClassOf(n)]| > 0 {
          ReuseIsOk(s, n);
        } else {
          CarveIsOk(s, ClassSize(ClassOf(n)), Small(n), cfg, true);
        }
      } else {
        CarveIsOk(s, Align8(n), Regular, cfg, inPlace && n <= s.l.full);
      }
    }
  }

  lemma TakeInAboveSame(l: Layout, i: nat, o: nat)
    requires l.Inv() && JoinsAbove(l, i, o) && l.tiles[o].kind.Lost?
    ensures SameLive(l, TakeInAbove(l, i, o))
  {
    assert l.FreeAt(i);
  }

  lemma JoinBelowSame(l: Layout, i: nat, o: nat)
    requires l.Inv() && JoinsBelow(l, i, o) && o in l.tiles && l.tiles[o].kind.Lost?
    ensures SameLive(l, JoinBelow(l, i, o))
    ensures l.TileOk(o) && SameLive(l, JoinBelowShort(l, i, o))
  {
    assert l.FreeAt(i - 1) && l.TileOk(o) && l.TileOk(l.free[i - 1]);
    assert l.Apart(l.free[i - 1], l.free[i - 1] + l.tiles[l.free[i - 1]].len + l.tiles[o].len - HEADER);
    assert l.Apart(o, l.free[i - 1] + l.tiles[l.free[i - 1]].len + l.tiles[o].len - HEADER);
  }

  lemma InsertSame(l: Layout, o: nat)
    requires l.Inv() && o in l.tiles && l.tiles[o].kind.Lost?
    ensures SameLive(l, Insert(l, o))
    ensures Insert(l, o).start == l.start && Insert(l, o).full == l.full
  {
    hide Layout.Tiled, Layout.Listed, SameLive;
    var i := Below(l.free, o);
    if i == |l.free| {
      if JoinsBelow(l, i, o) { JoinBelowSame(l, i, o); } else { GiveSame(l, i, o); }
    } else {
      SameLiveRefl(l);
      if JoinsAbove(l, i, o) { TakeInAboveInv(l, i, o); TakeInAboveSame(l, i, o); }
      var up := if JoinsAbove(l, i, o) then TakeInAbove(l, i, o) else l;
      if JoinsBelow(up, i, o) { JoinBelowSame(up, i, o); } else { GiveSame(up, i, o); }
      SameLiveTrans(l, up, Insert(l, o));
    }
  }

  lemma GiveSame(l: Layout, i: nat, o: nat)
    requires i <= |l.free| && o in l.tiles && l.tiles[o].kind.Lost?
    ensures SameLive(l, Give(l, i, o))
  {
  }

  lemma SameLiveRefl(l: Layout)
    ensures SameLive(l, l)
  {
  }

  lemma SameLiveTrans(l: Layout, m: Layout, r: Layout)
    requires SameLive(l, m) && SameLive(m, r)
    ensures SameLive(l, r)
  {
    forall o ensures Live(l, o) == Live(r, o) && (Live(l, o) ==> r.tiles[o] == l.tiles[o]) {
      assert Live(m, o) == Live(l, o);
    }
  }

  /** Freeing takes the block from the allocated ones and leaves the others as they are. */
  lemma ReleaseIsOk(s: State, p: nat)
    requires s.Inv() && LiveAt(s.l, p)
    ensures Release(s, p).Inv() && Release(s, p).failed == s.failed && Release(s, p).l.full == s.l.full
    ensures Keeps(s.l, Release(s, p).l, p - HEADER)
    ensures forall o {:trigger Live(Release(s, p).l, o)} :: Live(Release(s, p).l, o) ==> Live(s.l, o) && o != p - HEADER
    ensures !LiveAt(Release(s, p).l, p)
  {
    var o := p - HEADER;
    MarkInv(s.l, o, Lost);
    var m := Mark(s.l, o, Lost);
    var k := s.l.tiles[o].kind;
    assert s.l.TileOk(o);
    if !s.failed {
      if k.Small? {
        PushIdleInv(m, ClassOf(k.size), o);
      } else {
        InsertInv(m, o);
        InsertSame(m, o);
        forall x | Live(s.l, x) && x != o ensures Live(m, x) { }
        assert !Live(m, o);
      }
    }
  }

  /** Frees the block at p once its contents are in the block of the outcome, if there is one. */
  ghost function Replaced(r: Outcome, p: nat): Outcome
    requires r.Block? ==> r.s.Inv() && LiveAt(r.s.l, p)
  {
    if r.Block? then Block(r.p, Release(r.s, p)) else r
  }

  ghost function Moved(s: State, p: nat, n: nat, small: bool, cfg: Config): Outcome
    requires s.Inv() && LiveAt(s.l, p)
  {
    AllocationIsOk(s, n, small, cfg, true);
    assert Live(s.l, p - HEADER);
    Replaced(Allocation(s, n, small, cfg, true), p)
  }

  /** The regular block at o can be made `size` bytes where it is or from the free block below it. */
  ghost predicate CanStay(l: Layout, o: nat, size: nat)
    requires o in l.tiles
  {
    || size + HEADER <= l.tiles[o].len
    || CanExpandUp(l, o, size + HEADER - l.tiles[o].len)
    || CanSlideDown(l, o, size + HEADER - l.tiles[o].len)
  }

  /** Makes the regular block at o `size` bytes without another allocation. */
  ghost function Resized(s: State, o: nat, size: nat): Outcome
    requires s.Inv() && Live(s.l, o) && s.l.tiles[o].kind.Regular? && size % 8 == 0 && CanStay(s.l, o, size)
  {
    assert s.l.TileOk(o);
    var more := size + HEADER - s.l.tiles[o].len;
    var i := Below(s.l.free, o);
    if more == 0 then Block(o + HEADER, s)
    else if more < 0 then Block(o + HEADER, Shrink(s, o, size))
    else if CanExpandUp(s.l, o, more) then
      Block(o + HEADER, s.(l := ExpandUp(s.l, i, o, more), hwm := Max(s.hwm, s.l.free[i] + more)))
    else Block(s.l.free[i - 1] + HEADER, s.(l := SlideDown(s.l, i, o, size)))
  }

  /** Changes the size of the block at p to n bytes. */
  ghost function Reallocation(s: State, p: nat, n: nat, small: bool, cfg: Config): Outcome
    requires s.Inv() && LiveAt(s.l, p)
  {
    var o := p - HEADER;
    var k := s.l.tiles[o].kind;
    if k.Small? then
      if small && cfg.bitmaps && ClassOf(n) == ClassOf(k.size) then Block(p, s.(l := Mark(s.l, o, Small(n))))
      else Moved(s, p, n, small, cfg)
    else if CanStay(s.l, o, Align8(n)) then Resized(s, o, Align8(n))
    else Moved(s, p, Align8(n), small, cfg)
  }

  /** The bytes an allocated block's size word records. */
  function Recorded(t: Tile): int {
    if t.kind.Small? then t.kind.size else t.len - HEADER
  }

  /** A block for n bytes at q replaces the one at p, and the others are as they were. */
  ghost predicate ReallocationOk(s: State, r: Outcome, p: nat, n: nat) {
    match r
    case Block(q, t) =>
      && t.Inv() && t.failed == s.failed
      && LiveAt(t.l, q) && (q == p || (!LiveAt(s.l, q) && !LiveAt(t.l, p)))
      && Recorded(t.l.tiles[q - HEADER]) in {n, Align8(n)}
      && Keeps(s.l, t.l, p - HEADER) && t.l.full >= s.l.full
    case Null(t) => t.Inv() && Keeps(s.l, t.l, -1) && t.l.full >= s.l.full
    case Aborted => true
  }

  lemma MovedIsOk(s: State, p: nat, m: nat, n: nat, small: bool, cfg: Config)
    requires s.Inv() && LiveAt(s.l, p) && (m == n || m == Align8(n))
    ensures ReallocationOk(s, Moved(s, p, m, small, cfg), p, n)
  {
    hide Allocation, Release, Layout.Inv;
    AllocationIsOk(s, m, small, cfg, true);
    var r := Allocation(s, m, small, cfg, true);
    if r.Block? {
      assert Live(s.l, p - HEADER);
      ReleaseIsOk(r.s, p);
      assert Live(r.s.l, r.p - HEADER);
      assert Align8(Align8(n)) == Align8(n);
      forall o | Live(s.l, o) && o != p - HEADER
        ensures o in Release(r.s, p).l.tiles
        && Release(r.s, p).l.tiles[o] == s.l.tiles[o] {
        assert Live(r.s.l, o);
      }
    }
  }

  lemma ShrinkIsOk(s: State, o: nat, size: nat)
    requires s.Inv() && Live(s.l, o) && s.l.tiles[o].kind.Regular?
    requires size % 8 == 0 && size + 2 * HEADER <= s.l.tiles[o].len
    ensures var t := Shrink(s, o, size);
      t.Inv() && t.failed == s.failed && t.l.full == s.l.full
      && Live(t.l, o) && t.l.tiles[o] == Tile(size + HEADER, Regular) && Keeps(s.l, t.l, o)
  {
    hide Insert, Layout.Tiled, Layout.Listed;
    MarkInv(s.l, o, Lost);
    CutInv(Mark(s.l, o, Lost), o, size + HEADER);
    var c := Cut(Mark(s.l, o, Lost), o, size + HEADER);
    MarkInv(c, o, Regular);
    var m := Mark(c, o, Regular);
    forall x | Live(s.l, x) && x != o ensures Live(m, x) && m.tiles[x] == s.l.tiles[x] { }
    assert Live(m, o);
    if !s.failed {
      InsertInv(m, o + HEADER + size);
      InsertSame(m, o + HEADER + size);
    }
  }

  lemma ExpandUpIsOk(l: Layout, i: nat, o: nat, more: nat)
    requires l.Inv() && Live(l, o) && l.tiles[o].kind.Regular? && JoinsAbove(l, i, o)
    requires 0 < more && more % 8 == 0 && more + HEADER <= l.tiles[l.free[i]].len
    ensures var r := ExpandUp(l, i, o, more);
      r.Inv() && r.start == l.start && r.full == l.full && Live(r, o)
        && r.tiles[o] == Tile(l.tiles[o].len + more, Regular) && Keeps(l, r, o)
  {
    hide Layout.Tiled, Layout.Listed, Keeps;
    var f := l.free[i];
    HeldBetween(l, i);
    TileAt(l, f);
    TileAt(l, o);
    MarkInv(l, o, Lost);
    var m := Mark(l, o, Lost);
    HeldBetween(m, i);
    PortionInv(Hold(m, i), i, f, more, Lost);
    var g := Portion(Hold(m, i), i, f, more, Lost);
    FuseInv(g, o);
    MarkInv(Fuse(g, o), o, Regular);
    ExpandUpKeeps(l, i, o, more);
  }

  lemma ExpandUpKeeps(l: Layout, i: nat, o: nat, more: nat)
    requires l.Inv() && Live(l, o) && JoinsAbove(l, i, o) && 0 < more && more + HEADER <= l.tiles[l.free[i]].len
    ensures Keeps(l, ExpandUp(l, i, o, more), o)
  {
    var f := l.free[i];
    assert l.FreeAt(i);
    forall x | Live(l, x) && x != o
      ensures x in ExpandUp(l, i, o, more).tiles
      && ExpandUp(l, i, o, more).tiles[x] == l.tiles[x] {
      assert l.Apart(f, x) && l.Apart(x, f);
    }
  }

  /** SlideDown() before the rest is given back: one tile from the free block to the end of the block. */
  lemma SlideJoin(l: Layout, i: nat, o: nat)
    requires l.Inv() && Live(l, o) && JoinsBelow(l, i, o)
    ensures var f := l.free[i - 1]; var g := Fuse(Hold(Mark(l, o, Lost), i - 1), f);
      g.Inv() && g.TileOk(f) && l.FreeAt(i - 1) && f < o && (i < |l.free| ==> l.free[i] >= l.End(o))
  {
    var f := l.free[i - 1];
    assert l.TileOk(f) && l.TileOk(o) && l.FreeAt(i - 1);
    MarkInv(l, o, Lost);
    var m := Mark(l, o, Lost);
    HoldInv(m, i - 1);
    FuseInv(Hold(m, i - 1), f);
    assert Fuse(Hold(m, i - 1), f).TileOk(f);
    if i < |l.free| { assert l.FreeAt(i) && l.Apart(f, l.free[i]) && l.Apart(o, l.free[i]); }
  }

  lemma SlideDownIsOk(l: Layout, i: nat, o: nat, size: nat)
    requires l.Inv() && Live(l, o) && l.tiles[o].kind.Regular? && JoinsBelow(l, i, o)
    requires size % 8 == 0 && l.tiles[o].len < size + HEADER <= l.tiles[l.free[i - 1]].len + l.tiles[o].len
    ensures var r := SlideDown(l, i, o, size); var f := l.free[i - 1];
      r.Inv() && r.start == l.start && r.full == l.full && Live(r, f) && r.tiles[f] == Tile(size + HEADER, Regular)
      && !Live(l, f) && !Live(r, o) && Keeps(l, r, o)
  {
    var f := l.free[i - 1];
    SlideJoin(l, i, o);
    var g := Fuse(Hold(Mark(l, o, Lost), i - 1), f);
    hide Layout.Tiled, Layout.Listed;
    PortionInv(g, i - 1, f, size + HEADER, Regular);
    SlideKeeps(l, i, o, size);
  }

  lemma SlideKeeps(l: Layout, i: nat, o: nat, size: nat)
    requires l.Inv() && Live(l, o) && JoinsBelow(l, i, o)
    requires l.tiles[o].len < size + HEADER <= l.tiles[l.free[i - 1]].len + l.tiles[o].len
    ensures Keeps(l, SlideDown(l, i, o, size), o) && !Live(SlideDown(l, i, o, size), o)
  {
    var f := l.free[i - 1];
    assert l.TileOk(f) && l.TileOk(o) && l.FreeAt(i - 1);
    forall x | Live(l, x) && x != o
      ensures x in SlideDown(l, i, o, size).tiles
      && SlideDown(l, i, o, size).tiles[x] == l.tiles[x] {
      assert l.Apart(o, x) && l.Apart(x, o) && l.Apart(f, x) && l.Apart(x, f);
    }
  }

  /** The block stays where it is, with a new size, or gives way to one at the free block below it. */
  lemma InPlaceIsOk(s: State, p: nat, q: nat, n: nat, l: Layout, hwm: nat)
    requires s.Inv() && !s.failed && LiveAt(s.l, p) && HEADER <= q
    requires l.Inv() && l.start == s.l.start && l.full == s.l.full && Keeps(s.l, l, p - HEADER)
    requires Live(l, q - HEADER) && l.tiles[q - HEADER] == Tile(Align8(n) + HEADER, Regular)
    requires q == p || (!Live(s.l, q - HEADER) && !Live(l, p - HEADER))
    ensures ReallocationOk(s, Block(q, s.(l := l, hwm := hwm)), p, n)
  {
  }

  lemma ExpandingIsOk(s: State, p: nat, n: nat, more: nat)
    requires s.Inv() && LiveAt(s.l, p) && s.l.tiles[p - HEADER].kind.Regular?
    requires 0 < more && s.l.tiles[p - HEADER].len + more == Align8(n) + HEADER && CanExpandUp(s.l, p - HEADER, more)
    ensures var i := Below(s.l.free, p - HEADER);
      ReallocationOk(s, Block(p, s.(l := ExpandUp(s.l, i, p - HEADER, more), hwm := Max(s.hwm, s.l.free[i] + more))), p,
        n)
  {
    var o := p - HEADER;
    var i := Below(s.l.free, o);
    assert s.l.TileOk(o);
    ExpandUpIsOk(s.l, i, o, more);
    hide ExpandUp, Layout.Tiled, Layout.Listed, ReallocationOk, Keeps, Align8;
    InPlaceIsOk(s, p, p, n, ExpandUp(s.l, i, o, more), Max(s.hwm, s.l.free[i] + more));
  }

  lemma SlidingIsOk(s: State, p: nat, n: nat, more: nat)
    requires s.Inv() && LiveAt(s.l, p) && s.l.tiles[p - HEADER].kind.Regular?
    requires 0 < more && s.l.tiles[p - HEADER].len + more == Align8(n) + HEADER && CanSlideDown(s.l, p - HEADER, more)
    ensures var i := Below(s.l.free, p - HEADER);
      ReallocationOk(s, Block(s.l.free[i - 1] + HEADER, s.(l := SlideDown(s.l, i, p - HEADER, Align8(n)))), p, n)
  {
    var o := p - HEADER;
    var i := Below(s.l.free, o);
    SlideDownIsOk(s.l, i, o, Align8(n));
    hide SlideDown, Layout.Tiled, Layout.Listed, ReallocationOk, Keeps, Align8;
    InPlaceIsOk(s, p, s.l.free[i - 1] + HEADER, n, SlideDown(s.l, i, o, Align8(n)), s.hwm);
  }

  lemma ShrinkingIsOk(s: State, p: nat, n: nat)
    requires s.Inv() && LiveAt(s.l, p) && s.l.tiles[p - HEADER].kind.Regular?
    requires Align8(n) + 2 * HEADER <= s.l.tiles[p - HEADER].len
    ensures ReallocationOk(s, Block(p, Shrink(s, p - HEADER, Align8(n))), p, n)
  {
    ShrinkIsOk(s, p - HEADER, Align8(n));
  }

  lemma UnchangedIsOk(s: State, p: nat, n: nat)
    requires s.Inv() && LiveAt(s.l, p) && Recorded(s.l.tiles[p - HEADER]) == Align8(n)
    ensures ReallocationOk(s, Block(p, s), p, n)
  {
  }

  lemma ResizedIsOk(s: State, p: nat, n: nat, size: nat)
    requires s.Inv() && LiveAt(s.l, p) && s.l.tiles[p - HEADER].kind.Regular?
    requires size == Align8(n) && size % 8 == 0 && CanStay(s.l, p - HEADER, size)
    ensures ReallocationOk(s, Resized(s, p - HEADER, size), p, n)
  {
    hide Align8, State.Inv, Shrink, ExpandUp, SlideDown, ReallocationOk;
    var o := p - HEADER;
    TileIsOk(s, o);
    var more := size + HEADER - s.l.tiles[o].len;
    if more == 0 {
      UnchangedIsOk(s, p, n);
    } else if more < 0 {
      ShrinkingIsOk(s, p, n);
    } else if CanExpandUp(s.l, o, more) {
      ExpandingIsOk(s, p, n, more);
    } else {
      SlidingIsOk(s, p, n, more);
    }
  }

  lemma TileIsOk(s: State, o: nat)
    requires s.Inv() && o in s.l.tiles
    ensures s.l.TileOk(o)
  {
  }

  lemma ReallocationIsOk(s: State, p: nat, n: nat, small: bool, cfg: Config)
    requires s.Inv() && LiveAt(s.l, p)
    ensures ReallocationOk(s, Reallocation(s, p, n, small, cfg), p, n)
  {
    hide Moved, Resized, Layout.Tiled, Layout.Listed, CanStay, Align8;
    var o := p - HEADER;
    var k := s.l.tiles[o].kind;
    TileIsOk(s, o);
    Align8Multiple(n);
    if k.Regular? {
      if CanStay(s.l, o, Align8(n)) {
        ResizedIsOk(s, p, n, Align8(n));
      } else {
        MovedIsOk(s, p, Align8(n), n, small, cfg);
      }
    } else if small && cfg.bitmaps && ClassOf(n) == ClassOf(k.size) {
      MarkInv(s.l, o, Small(n));
    } else {
      MovedIsOk(s, p, n, n, small, cfg);
    }
  }

  /** Rounding up gives room for all n bytes unless it wraps, and then it gives none. */
  lemma Align8Covers(n: nat)
    requires n < 0x1_0000_0000
    ensures Align8(n) >= n <==> n <= 0xFFFF_FFF8
    ensures n <= 0xFFFF_FFF8 ==> Align8(n) % 8 == 0 && Align8(n) < n + 8
    ensures n > 0xFFFF_FFF8 ==> Align8(n) == 0
  {
  }
}
