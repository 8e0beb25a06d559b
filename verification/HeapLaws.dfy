/**
What allocating and resizing do, told by where blocks lie and how long they are, with no word of how the lists are
walked: which block is given, when there is none, and what a failure leaves.
*/
module HeapLaws {
  import opened Layouts
  import opened HeapSpec
  import opened HeapRuns
  import opened VectorChunks

  // ---- Sizes ----

  /** `size` bytes are what a request for n is given: the least class that holds it, or the next multiple of 8. */
  ghost predicate Serves(size: nat, n: nat, small: bool) {
    if small && n <= 128 then
      size in {16, 32, 64, 128} && n <= size && (size == 16 || size < 2 * n)
    else
      n <= size < n + 8 && size % 8 == 0
  }

  /** The bytes a block for n has. */
  function BlockSize(n: nat, small: bool): (r: nat)
    ensures Serves(r, n, small) && r >= n && r % 8 == 0 && (n > 0 ==> r > 0)
  {
    if small && n <= 16 then 16
    else if small && n <= 32 then 32
    else if small && n <= 64 then 64
    else if small && n <= 128 then 128
    else (n + 7) / 8 * 8
  }

  /** The list of the blocks of a class. */
  ghost function ListOf(l: Layout, size: nat): seq<nat>
    requires l.Inv() && size in {16, 32, 64, 128}
  {
    l.idle[if size == 16 then 0 else if size == 32 then 1 else if size == 64 then 2 else 3]
  }

  lemma ClassServes(n: nat, size: nat)
    requires Serves(size, n, true) && n <= 128
    ensures ClassOf(n) < CLASSES && ClassSize(ClassOf(n)) == size
    ensures forall l: Layout :: l.Inv() ==> ListOf(l, size) == l.idle[ClassOf(n)]
  {
  }

  lemma RoundingServes(n: nat, size: nat)
    requires Serves(size, n, false) && n <= 0xFFFF_FFF8
    ensures Align8(n) == size
  {
  }

  // ---- Which free block ----

  /** A free block of at least `len` bytes. */
  ghost predicate FitsAt(l: Layout, o: nat, len: nat) {
    o in l.tiles && l.tiles[o].kind.Free? && l.tiles[o].len >= len
  }

  ghost predicate NoneFits(l: Layout, len: nat) {
    forall o {:trigger FitsAt(l, o, len)} :: !FitsAt(l, o, len)
  }

  /** The lowest of the free blocks of at least `len` bytes. */
  ghost predicate LowestFit(l: Layout, o: nat, len: nat) {
    FitsAt(l, o, len) && forall x {:trigger FitsAt(l, x, len)} :: FitsAt(l, x, len) ==> o <= x
  }

  lemma FirstIsLowest(l: Layout, len: nat)
    requires l.Inv()
    ensures var i := FirstFit(l, len, 0);
      if i < |l.free| then LowestFit(l, l.free[i], len) else NoneFits(l, len)
  {
    var i := FirstFit(l, len, 0);
    forall x | FitsAt(l, x, len) ensures i < |l.free| && l.free[i] <= x {
      assert l.TileOk(x);
      var j :| 0 <= j < |l.free| && l.free[j] == x;
      assert !(j < i);
      assert i < j ==> l.free[i] < l.free[j];
    }
    if i < |l.free| { assert l.FreeAt(i); }
  }

  /** The block at p was cut from the start of the lowest free block with room; what was left of that is free. */
  ghost predicate CutFrom(l: Layout, r: Layout, p: nat, size: nat, kind: Kind) {
    && p >= 8 && LowestFit(l, p - 8, size + 8) && p - 8 in r.tiles && r.tiles[p - 8] == Tile(size + 8, kind)
    && r.start == l.start && r.full == l.full && r.idle == l.idle
    && (l.tiles[p - 8].len > size + 8 ==>
      p + size in r.tiles && r.tiles[p + size] == Tile(l.tiles[p - 8].len - size - 8, Free))
    && (forall x: nat {:trigger SameTile(l, r, x)} ::
      x != p - 8 && (x == p + size ==> l.tiles[p - 8].len == size + 8) ==> SameTile(l, r, x))
  }

  /** What lies at x is the same in both. */
  ghost predicate SameTile(l: Layout, r: Layout, x: nat) {
    (x in r.tiles <==> x in l.tiles) && (x in l.tiles ==> r.tiles[x] == l.tiles[x])
  }

  ghost predicate FreeAbove(l: Layout, o: nat, x: nat) {
    o < x && x in l.tiles && l.tiles[x].kind.Free?
  }

  /** x is the lowest free block above o, or 0 if there is none. */
  ghost predicate NextAbove(l: Layout, o: nat, x: nat) {
    && (x != 0 ==> FreeAbove(l, o, x))
    && (forall y {:trigger FreeAbove(l, o, y)} :: FreeAbove(l, o, y) ==> 0 < x <= y)
  }

  /**
  How high the mark is once a block is cut from the start of the free block at o: as high as the header of the rest,
  unless that ends the buffer and the block was not cut inline from the lowest free block; or as high as the header of
  the next free block, for want of which that of offset 0 is taken.
  */
  ghost predicate MarkAfter(s: State, hwm: nat, o: nat, size: nat, inPlace: bool)
    requires o in s.l.tiles
  {
    var end := o + 8 + size;
    if s.l.End(o) > end then
      hwm == if end + 8 < s.l.full || (inPlace && LowestFit(s.l, o, 8)) then Max(s.hwm, end + 8) else s.hwm
    else
      exists x: nat {:trigger NextAbove(s.l, o, x)} :: NextAbove(s.l, o, x) && hwm == Max(s.hwm, x + 8)
  }

  lemma TakeCuts(s: State, i: nat, size: nat, kind: Kind, inPlace: bool)
    requires s.Inv() && size % 8 == 0 && i < |s.l.free| && s.l.free[i] in s.l.tiles
    requires LowestFit(s.l, s.l.free[i], size + 8)
    ensures CutFrom(s.l, Take(s.l, i, size + 8, kind), s.l.free[i] + 8, size, kind)
    ensures MarkAfter(s, TakeHwm(s.l, i, size + 8, s.hwm, inPlace), s.l.free[i], size, inPlace)
  {
    assert s.l.FreeAt(i) && s.l.TileOk(s.l.free[i]);
    NextFree(s.l, i);
    FirstOfAll(s.l, i);
  }

  /** Only the first block of the list has none below. */
  lemma FirstOfAll(l: Layout, i: nat)
    requires l.Inv() && i < |l.free|
    ensures LowestFit(l, l.free[i], 8) <==> i == 0
  {
    assert l.FreeAt(i) && l.TileOk(l.free[i]) && l.FreeAt(0) && l.TileOk(l.free[0]);
    assert FitsAt(l, l.free[0], 8);
    if i == 0 {
      forall x | FitsAt(l, x, 8) ensures l.free[0] <= x {
        assert l.TileOk(x);
        var j :| 0 <= j < |l.free| && l.free[j] == x;
      }
    }
  }

  /** The free block after block i of the list is the lowest above it. */
  lemma NextFree(l: Layout, i: nat)
    requires l.Inv() && 0 < l.start && i < |l.free|
    ensures NextAbove(l, l.free[i], LinkAt(l.free, i + 1))
  {
    if i + 1 < |l.free| { assert l.FreeAt(i + 1) && l.TileOk(l.free[i + 1]); }
    forall y | FreeAbove(l, l.free[i], y) ensures 0 < LinkAt(l.free, i + 1) <= y {
      assert l.TileOk(y);
      var j :| 0 <= j < |l.free| && l.free[j] == y;
      assert !(j < i);
      assert i + 1 < j ==> l.free[i + 1] < l.free[j];
    }
  }

  // ---- Growing ----

  /** Doubling stops at the first size that is enough. */
  lemma {:induction false} DoubledIsLeast(size: nat, need: nat) returns (k: nat)
    requires size > 0
    ensures Doubled(size, need) == DoubledBy(size, k) && need <= DoubledBy(size, k)
    ensures forall j: nat {:trigger DoubledBy(size, j)} :: j < k ==> DoubledBy(size, j) < need
    decreases need - size
  {
    hide DoubledBy;
    DoubledOnce(size, 0);
    if size >= need {
      k := 0;
    } else {
      k := DoubledIsLeast(2 * size, need);
      DoubledOnce(size, k);
      forall j: nat | j < k + 1 ensures DoubledBy(size, j) < need {
        if j > 0 { DoubledOnce(size, j - 1); }
      }
      k := k + 1;
    }
  }

  /** The size is `size`, doubled one or more times. */
  ghost predicate IsDoubled(size: nat, r: nat) {
    exists k: nat {:trigger DoubledBy(size, k)} :: k > 0 && r == DoubledBy(size, k)
  }

  /** The size a buffer is given that has no room for `need` bytes. */
  lemma DoubledFull(full: nat, need: nat)
    requires full > 0
    ensures var r := Doubled(2 * full, need); IsDoubled(full, r) && need <= r && (r == 2 * full || r < 2 * need)
  {
    hide DoubledBy, Doubled;
    var k := DoubledIsLeast(2 * full, need);
    DoubledOnce(full, k);
    DoubledOnce(2 * full, if k > 0 then k - 1 else 0);
  }

  /** `size` doubled at least once, and no more often than it takes to have `need`. */
  ghost predicate LeastDoubled(size: nat, need: nat, r: nat) {
    && need <= r
    && exists k: nat {:trigger DoubledBy(size, k)} ::
      && k > 0 && r == DoubledBy(size, k)
      && forall j: nat {:trigger DoubledBy(size, j)} :: 0 < j < k ==> DoubledBy(size, j) < need
  }

  lemma GrowsLeast(size: nat, need: nat)
    requires size > 0
    ensures LeastDoubled(size, need, Doubled(2 * size, need))
  {
    hide DoubledBy, Doubled;
    var k := DoubledIsLeast(2 * size, need);
    DoubledOnce(size, k);
    forall j: nat | 0 < j < k + 1 ensures DoubledBy(size, j) < need { DoubledOnce(size, j - 1); }
  }

  lemma DoubledAgain(full: nat, f: nat)
    requires IsDoubled(full, f)
    ensures IsDoubled(full, 2 * f)
  {
    hide DoubledBy;
    var k: nat :| k > 0 && f == DoubledBy(full, k);
    DoubledOnce(full, k);
  }

  /** A size the buffer is asked to have: doubled, and not much more than needed. */
  ghost predicate AskedFor(full: nat, need: nat, f: nat) {
    IsDoubled(full, f) && need <= f && (f == 2 * full || f < 4 * need)
  }

  /** Where nothing fits, a buffer that can move grows until it does, or the process ends at its limit. */
  lemma CarveGrows(s: State, size: nat, kind: Kind, cfg: Config, inPlace: bool)
    requires s.Inv() && !s.failed && cfg.movable && size > 0 && NoneFits(s.l, size + 8)
    ensures var r := Carve(s, size, kind, cfg, inPlace);
      match r
      case Block(p, t) => AskedFor(s.l.full, size + 8, t.l.full) && t.l.full <= cfg.limit
      case Null(t) => false
      case Aborted => exists f {:trigger AskedFor(s.l.full, size + 8, f)} ::
        AskedFor(s.l.full, size + 8, f) && cfg.limit < f
  {
    hide Layout.Tiled, Layout.Listed, NoneFits, LowestFit, AskedFor, Carve, Doubled, Grow, FirstFit;
    var need := size + 8;
    NotBoth(s.l, need);
    FirstAsk(s.l.full, need);
    CarveAfter(s, size, kind, cfg, inPlace);
    var f1 := Doubled(2 * s.l.full, need);
    if f1 <= cfg.limit {
      var g := s.(l := Grow(s.l, f1));
      if FirstFit(g.l, need, 0) == |g.l.free| {
        SecondAsk(s.l, need);
        CarveAfter(g, size, kind, cfg, true);
        TwoGrowthsSuffice(s.l, need);
        if 2 * f1 <= cfg.limit { CarveHere(g.(l := Grow(g.l, 2 * f1)), size, kind, cfg, true); }
      } else {
        CarveHere(g, size, kind, cfg, true);
      }
    }
  }

  lemma CarveHere(s: State, size: nat, kind: Kind, cfg: Config, inPlace: bool)
    requires s.Inv() && !s.failed && FirstFit(s.l, size + 8, 0) < |s.l.free|
    ensures var r := Carve(s, size, kind, cfg, inPlace); r.Block? && r.s.l.full == s.l.full
  {
    hide Layout.Tiled, Layout.Listed;
  }

  /** Allocating where nothing fits is allocating in the grown buffer, if it may grow so far. */
  lemma CarveAfter(s: State, size: nat, kind: Kind, cfg: Config, inPlace: bool)
    requires s.Inv() && !s.failed && cfg.movable && size > 0 && FirstFit(s.l, size + 8, 0) == |s.l.free|
    ensures var f := Doubled(2 * s.l.full, size + 8);
      && s.l.full + HEADER <= f && f % 8 == 0
      && Grow(s.l, f).Inv() && Grow(s.l, f).start == s.l.start && Grow(s.l, f).full == f
      && Carve(s, size, kind, cfg, inPlace)
        == if f > cfg.limit then Aborted else Carve(s.(l := Grow(s.l, f)), size, kind, cfg, true)
  {
    hide Layout.Tiled, Layout.Listed, Grow, Doubled;
    GrowthsDecrease(s.l, size + 8, Doubled(2 * s.l.full, size + 8));
  }

  lemma NotBoth(l: Layout, need: nat)
    requires l.Inv() && NoneFits(l, need)
    ensures FirstFit(l, need, 0) == |l.free|
  {
    FirstIsLowest(l, need);
  }

  lemma FirstAsk(full: nat, need: nat)
    requires full > 0
    ensures AskedFor(full, need, Doubled(2 * full, need))
  {
    DoubledFull(full, need);
  }

  /** If one growth was not enough, the second doubles the size once. */
  lemma SecondAsk(l: Layout, need: nat)
    requires l.Inv() && 0 < l.full
    requires var f := Doubled(2 * l.full, need);
      && l.full + HEADER <= f && f % 8 == 0 && Grow(l, f).Inv() && FirstFit(Grow(l, f), need, 0) == |Grow(l, f).free|
    ensures var f := Doubled(2 * l.full, need); Doubled(2 * f, need) == 2 * f && AskedFor(l.full, need, 2 * f)
  {
    var f := Doubled(2 * l.full, need);
    DoubledFull(l.full, need);
    DoubledAgain(l.full, f);
    GrowInv(l, f);
    assert f - l.full < need;
  }

  // ---- Allocating ----

  /** A fixed buffer, or one that has failed, in which no allocation will succeed again. */
  ghost predicate Spent(s: State) {
    s.failed && s.l.free == [] && s.l.idle == [[], [], [], []]
  }

  /**
  What allocating n bytes comes to in a buffer that has not failed: the first block of the class, or the lowest free
  block with room, or, for want of both, a larger buffer or a failure that empties all lists.
  */
  ghost predicate Served(s: State, n: nat, size: nat, small: bool, cfg: Config, inPlace: bool, r: Outcome)
    requires s.Inv() && Serves(size, n, small)
  {
    var kind := if small && n <= 128 then Small(n) else Regular;
    if small && n <= 128 && ListOf(s.l, size) != [] then
      && r.Block? && r.p == ListOf(s.l, size)[0] && r.s.hwm == s.hwm && !r.s.failed
      && r.s.l.free == s.l.free && r.s.l.full == s.l.full
      && r.p >= 8 && r.p - 8 in r.s.l.tiles && r.s.l.tiles[r.p - 8] == Tile(size + 8, kind)
      && (forall x: nat {:trigger SameTile(s.l, r.s.l, x)} :: x != r.p - 8 ==> SameTile(s.l, r.s.l, x))
    else if !NoneFits(s.l, size + 8) then
      r.Block? && !r.s.failed && CutFrom(s.l, r.s.l, r.p, size, kind)
      && MarkAfter(s, r.s.hwm, r.p - 8, size, kind.Small? || (inPlace && n <= s.l.full))
    else if !cfg.movable then
      && r.Null? && Spent(r.s) && r.s.hwm == s.hwm && r.s.l.full == s.l.full
    else
      match r
      case Block(p, t) =>
        && AskedFor(s.l.full, size + 8, t.l.full) && t.l.full <= cfg.limit && !t.failed
        && p >= 8 && p - 8 in t.l.tiles && t.l.tiles[p - 8] == Tile(size + 8, kind)
      case Null(t) => false
      case Aborted =>
        exists f {:trigger AskedFor(s.l.full, size + 8, f)} :: AskedFor(s.l.full, size + 8, f) && cfg.limit < f
  }

  lemma AllocationServes(s: State, n: nat, size: nat, small: bool, cfg: Config, inPlace: bool)
    requires s.Inv() && !s.failed && 0 < n <= 0xFFFF_FFF8 && Serves(size, n, small && cfg.bitmaps)
    ensures Served(s, n, size, small && cfg.bitmaps, cfg, inPlace, Allocation(s, n, small, cfg, inPlace))
  {
    hide Layout.Tiled, Layout.Listed, NoneFits, LowestFit, AskedFor, Carve, CutFrom, MarkAfter, Align8;
    if small && cfg.bitmaps && n <= 128 {
      ClassServes(n, size);
      if ListOf(s.l, size) != [] {
        ReuseIsOk(s, n);
        ReuseServes(s, n);
      } else {
        CarveServes(s, size, Small(n), cfg, true);
      }
    } else {
      RoundingServes(n, size);
      CarveServes(s, size, Regular, cfg, inPlace && n <= s.l.full);
    }
  }

  lemma ReuseServes(s: State, n: nat)
    requires s.Inv() && !s.failed && ClassOf(n) < CLASSES && |s.l.idle[ClassOf(n)]| > 0
    ensures s.l.IdleAt(ClassOf(n), 0)
    ensures var c := ClassOf(n); var p := s.l.idle[c][0]; var r := Mark(PopIdle(s.l, c), p - HEADER, Small(n));
      && r.tiles[p - HEADER] == Tile(ClassSize(c) + 8, Small(n)) && r.free == s.l.free
      && forall x: nat {:trigger SameTile(s.l, r, x)} :: x != p - 8 ==> SameTile(s.l, r, x)
  {
    assert s.l.IdleAt(ClassOf(n), 0);
    TileAt(s.l, s.l.idle[ClassOf(n)][0] - HEADER);
  }

  lemma CarveServes(s: State, size: nat, kind: Kind, cfg: Config, inPlace: bool)
    requires s.Inv() && !s.failed && size > 0 && size % 8 == 0
    requires kind.Regular? || (kind.Small? && kind.size <= 128 && size == ClassSize(ClassOf(kind.size)))
    ensures var r := Carve(s, size, kind, cfg, inPlace);
      if !NoneFits(s.l, size + 8) then
        r.Block? && !r.s.failed && CutFrom(s.l, r.s.l, r.p, size, kind) && MarkAfter(s, r.s.hwm, r.p - 8, size, inPlace)
      else if !cfg.movable then
        r.Null? && Spent(r.s) && r.s.hwm == s.hwm && r.s.l.full == s.l.full
      else
        match r
        case Block(p, t) =>
          && AskedFor(s.l.full, size + 8, t.l.full) && t.l.full <= cfg.limit && !t.failed
          && p >= 8 && p - 8 in t.l.tiles && t.l.tiles[p - 8] == Tile(size + 8, kind)
        case Null(t) => false
        case Aborted =>
          exists f {:trigger AskedFor(s.l.full, size + 8, f)} :: AskedFor(s.l.full, size + 8, f) && cfg.limit < f
  {
    hide Layout.Tiled, Layout.Listed, LowestFit, AskedFor, CutFrom, MarkAfter, Take, TakeHwm, Doubled, Grow;
    FirstIsLowest(s.l, size + 8);
    var i := FirstFit(s.l, size + 8, 0);
    if i < |s.l.free| {
      TakeCuts(s, i, size, kind, inPlace);
      LowestFits(s.l, s.l.free[i], size + 8);
    } else if cfg.movable {
      CarveGrows(s, size, kind, cfg, inPlace);
      CarveIsOk(s, size, kind, cfg, inPlace);
    }
  }

  lemma LowestFits(l: Layout, o: nat, len: nat)
    requires LowestFit(l, o, len)
    ensures !NoneFits(l, len)
  {
  }

  /** A buffer of fixed size that gives no block has failed, whatever its free blocks are; one that can move has not. */
  lemma NoBlockFails(s: State, n: nat, small: bool, cfg: Config, inPlace: bool)
    requires s.Inv() && !s.failed && n > 0
    ensures var r := Allocation(s, n, small, cfg, inPlace);
      r.Null? ==> if cfg.movable then n > 0xFFFF_FFF8 else Spent(r.s)
  {
    if n <= 0xFFFF_FFF8 {
      var size := if small && cfg.bitmaps && n <= 128 then ClassSize(ClassOf(n)) else Align8(n);
      AllocationServes(s, n, size, small, cfg, inPlace);
    } else if !cfg.movable {
      hide Align8, Layout.Tiled, Layout.Listed;
    }
  }

  /** After that every allocation of every run gives none either. */
  lemma NoBlockIsFinal(s: State, n: nat, small: bool, cfg: Config, ops: seq<Op>, k: nat, other: bool, inPlace: bool)
    requires s.Inv() && !s.failed && n > 0 && !cfg.movable && Allocation(s, n, small, cfg, inPlace).Null?
    ensures var t := Allocation(s, n, small, cfg, inPlace).s;
      t.Inv() && (Run(t, ops, cfg).Some? ==>
        var u := Run(t, ops, cfg).value; Spent(u) && Allocation(u, k, other, cfg, inPlace) == Null(u))
  {
    hide Allocation, Layout.Tiled, Layout.Listed;
    NoBlockFails(s, n, small, cfg, inPlace);
    AllocationIsOk(s, n, small, cfg, inPlace);
    var t := Allocation(s, n, small, cfg, inPlace).s;
    if Run(t, ops, cfg).Some? {
      FailureIsSticky(t, ops, cfg, k, other, inPlace);
      FailedIsSpent(Run(t, ops, cfg).value);
    }
  }

  lemma FailedIsSpent(s: State)
    requires s.Inv() && s.failed
    ensures Spent(s)
  {
  }

  /** Allocating never makes the buffer larger than its limit, unless it was. */
  lemma AllocationWithin(s: State, n: nat, small: bool, cfg: Config, inPlace: bool)
    requires s.Inv() && n <= 0xFFFF_FFF8
    ensures var r := Allocation(s, n, small, cfg, inPlace); r.Block? ==> r.s.l.full <= Max(s.l.full, cfg.limit)
  {
    hide Allocation, Layout.Tiled, Layout.Listed, Align8, ClassOf, AskedFor, NoneFits, CutFrom, MarkAfter, SameTile;
    AllocationIsOk(s, n, small, cfg, inPlace);
    if n > 0 && !s.failed {
      var size := BlockSize(n, small && cfg.bitmaps);
      AllocationServes(s, n, size, small, cfg, inPlace);
      ServedWithin(s, n, size, small && cfg.bitmaps, cfg, inPlace, Allocation(s, n, small, cfg, inPlace));
    } else {
      NoneWanted(s, n, small, cfg, inPlace);
    }
  }

  lemma NoneWanted(s: State, n: nat, small: bool, cfg: Config, inPlace: bool)
    requires s.Inv() && (n == 0 || s.failed)
    ensures Allocation(s, n, small, cfg, inPlace) == Null(s)
  {
  }

  lemma ServedWithin(s: State, n: nat, size: nat, small: bool, cfg: Config, inPlace: bool, r: Outcome)
    requires s.Inv() && Serves(size, n, small) && Served(s, n, size, small, cfg, inPlace, r)
    ensures r.Block? ==> r.s.l.full <= Max(s.l.full, cfg.limit)
  {
    hide Layout.Tiled, Layout.Listed, AskedFor, NoneFits;
  }

  // ---- Resizing ----

  /** A free block of at least `len` bytes starts where the block at o ends. */
  ghost predicate FreeAfter(l: Layout, o: nat, len: nat) {
    o in l.tiles && FitsAt(l, l.End(o), len)
  }

  /** A free block of at least `len` bytes ends where the block at o starts. */
  ghost predicate FreeBefore(l: Layout, f: nat, o: nat, len: nat) {
    FitsAt(l, f, len) && l.End(f) == o
  }

  ghost predicate AnyFreeAbove(l: Layout, o: nat) {
    exists x: nat {:trigger FreeAbove(l, o, x)} :: FreeAbove(l, o, x)
  }

  lemma BelowSplits(l: Layout, o: nat)
    requires l.Inv() && Live(l, o)
    ensures var i := Below(l.free, o);
      && (i < |l.free| <==> AnyFreeAbove(l, o))
      && (i < |l.free| ==> l.FreeAt(i) && FreeAbove(l, o, l.free[i]))
      && (JoinsAbove(l, i, o) <==> FreeAfter(l, o, 8))
      && (JoinsAbove(l, i, o) ==> l.free[i] == l.End(o))
      && (forall f: nat {:trigger FreeBefore(l, f, o, 8)} ::
        FreeBefore(l, f, o, 8) <==> JoinsBelow(l, i, o) && f == l.free[i - 1])
  {
    var i := Below(l.free, o);
    assert l.TileOk(o);
    if i < |l.free| { assert l.FreeAt(i) && l.TileOk(l.free[i]) && FreeAbove(l, o, l.free[i]); }
    if i > 0 { assert l.FreeAt(i - 1) && l.TileOk(l.free[i - 1]); }
    forall x: nat | FreeAbove(l, o, x) ensures i < |l.free| && l.free[i] <= x { ListedAbove(l, o, x); }
    if FreeAfter(l, o, 8) {
      assert FreeAbove(l, o, l.End(o));
      assert l.Apart(o, l.free[i]);
    }
    forall f: nat | FreeBefore(l, f, o, 8) ensures JoinsBelow(l, i, o) && f == l.free[i - 1] { ListedBelow(l, o, f); }
  }

  lemma ListedAbove(l: Layout, o: nat, x: nat)
    requires l.Inv() && Live(l, o) && FreeAbove(l, o, x)
    ensures var i := Below(l.free, o); i < |l.free| && l.free[i] <= x
  {
    assert l.TileOk(x);
    var j :| 0 <= j < |l.free| && l.free[j] == x;
    var i := Below(l.free, o);
    assert !(j < i);
    assert i < j ==> l.free[i] < l.free[j];
  }

  lemma ListedBelow(l: Layout, o: nat, f: nat)
    requires l.Inv() && Live(l, o) && FreeBefore(l, f, o, 8)
    ensures var i := Below(l.free, o); 0 < i <= |l.free| && l.free[i - 1] == f
  {
    assert l.TileOk(f) && l.TileOk(o);
    var j :| 0 <= j < |l.free| && l.free[j] == f;
    var i := Below(l.free, o);
    assert l.FreeAt(i - 1) && l.Apart(f, l.free[i - 1]);
    assert !(i <= j);
    assert f <= l.free[i - 1];
  }

  /** The block at p gives way to a new one for n bytes, or stays if there is none. */
  ghost predicate GivesWay(s: State, p: nat, n: nat, small: bool, cfg: Config, r: Outcome)
    requires s.Inv() && LiveAt(s.l, p)
  {
    AllocationIsOk(s, n, small, cfg, true);
    assert Live(s.l, p - HEADER);
    match Allocation(s, n, small, cfg, true)
    case Block(q, t) => r == Block(q, Release(t, p))
    case Null(t) => r == Null(t)
    case Aborted => r == Aborted
  }

  /** The block at o of `len` bytes with its header is one of `need`, and what was cut off is free. */
  ghost predicate Shortened(l: Layout, r: Layout, o: nat, need: nat)
    requires o in l.tiles && need <= l.tiles[o].len
  {
    && o in r.tiles && r.tiles[o] == Tile(need, Regular)
    && o + need in r.tiles
    && r.tiles[o + need].kind.Free?
    && r.tiles[o + need].len ==
      l.tiles[o].len - need + if FreeAfter(l, o, 8) then l.tiles[l.End(o)].len else 0
  }

  /** The block at o has taken what it needs from the start of the free block that follows it; the rest is free. */
  ghost predicate Lengthened(l: Layout, r: Layout, o: nat, need: nat)
    requires o in l.tiles && need >= l.tiles[o].len && FitsAt(l, l.End(o), need - l.tiles[o].len + 9)
  {
    && o in r.tiles && r.tiles[o] == Tile(need, Regular)
    && o + need in r.tiles && r.tiles[o + need] == Tile(l.End(l.End(o)) - (o + need), Free)
  }

  /** Which way a regular block of a buffer that has not failed is resized to `size` bytes. */
  ghost predicate Rerouted(s: State, p: nat, size: nat, small: bool, cfg: Config, r: Outcome)
    requires s.Inv() && LiveAt(s.l, p)
  {
    var o := p - 8;
    var len, need := s.l.tiles[o].len, size + 8;
    if need == len then
      r == Block(p, s)
    else if need < len then
      r.Block? && r.p == p && r.s.hwm == s.hwm && !r.s.failed && Shortened(s.l, r.s.l, o, need)
    else if FitsAt(s.l, s.l.End(o), need - len + 9) then
      r.Block? && r.p == p && r.s.hwm == Max(s.hwm, o + need) && !r.s.failed && Lengthened(s.l, r.s.l, o, need)
    else if AnyFreeAbove(s.l, o) && (exists f: nat {:trigger FreeBefore(s.l, f, o, need - len)} ::
        FreeBefore(s.l, f, o, need - len)) then
      && r.Block? && r.s.hwm == s.hwm && !r.s.failed && r.p >= 8 && FreeBefore(s.l, r.p - 8, o, need - len)
      && r.p - 8 in r.s.l.tiles && r.s.l.tiles[r.p - 8] == Tile(need, Regular)
    else
      GivesWay(s, p, size, small, cfg, r)
  }

  lemma RegularReroutes(s: State, p: nat, n: nat, size: nat, small: bool, cfg: Config)
    requires s.Inv() && !s.failed && LiveAt(s.l, p) && s.l.tiles[p - HEADER].kind.Regular?
    requires n <= 0xFFFF_FFF8 && Serves(size, n, false)
    ensures Rerouted(s, p, size, small, cfg, Reallocation(s, p, n, small, cfg))
  {
    hide Layout.Tiled, Layout.Listed, Align8, Shrink, ExpandUp, SlideDown, Shortened, Lengthened, Allocation, Release,
      CanExpandUp, CanSlideDown, FitsAt, AnyFreeAbove, FreeBefore, Below;
    RoundingServes(n, size);
    var o := p - 8;
    TileAt(s.l, o);
    var len, need := s.l.tiles[o].len, size + 8;
    if need < len {
      ShrinkShortens(s, o, size);
    } else if need > len {
      ExpandsWhere(s.l, o, need - len);
      SlidesWhere(s.l, o, need - len);
      if CanExpandUp(s.l, o, need - len) {
        ExpandReroutes(s, o, size);
      } else if CanSlideDown(s.l, o, need - len) {
        SlideReroutes(s, o, size);
      }
    }
  }

  lemma ExpandReroutes(s: State, o: nat, size: nat)
    requires s.Inv() && Live(s.l, o) && s.l.tiles[o].kind.Regular? && size % 8 == 0 && s.l.tiles[o].len < size + 8
    requires CanExpandUp(s.l, o, size + 8 - s.l.tiles[o].len)
    ensures var i := Below(s.l.free, o); var more := size + 8 - s.l.tiles[o].len;
      && FitsAt(s.l, s.l.End(o), more + 9) && s.l.free[i] + more == o + size + 8
      && Lengthened(s.l, ExpandUp(s.l, i, o, more), o, size + 8)
  {
    hide Layout.Tiled, Layout.Listed, ExpandUp, Lengthened, Below, FitsAt;
    TileAt(s.l, o);
    ExpandLengthens(s.l, Below(s.l.free, o), o, size + 8 - s.l.tiles[o].len);
  }

  lemma SlideReroutes(s: State, o: nat, size: nat)
    requires s.Inv() && Live(s.l, o) && s.l.tiles[o].kind.Regular? && size % 8 == 0 && s.l.tiles[o].len < size + 8
    requires CanSlideDown(s.l, o, size + 8 - s.l.tiles[o].len)
    ensures var i := Below(s.l.free, o); var r := SlideDown(s.l, i, o, size); var f := s.l.free[i - 1];
      && f in r.tiles && r.tiles[f] == Tile(size + 8, Regular)
  {
    hide Layout.Tiled, Layout.Listed, SlideDown;
    SlideDownIsOk(s.l, Below(s.l.free, o), o, size);
  }

  lemma ExpandsWhere(l: Layout, o: nat, more: nat)
    requires l.Inv() && Live(l, o)
    ensures CanExpandUp(l, o, more) <==> FitsAt(l, l.End(o), more + 9)
  {
    BelowSplits(l, o);
  }

  lemma SlidesWhere(l: Layout, o: nat, more: nat)
    requires l.Inv() && Live(l, o)
    ensures CanSlideDown(l, o, more)
      <==> AnyFreeAbove(l, o) && exists f: nat {:trigger FreeBefore(l, f, o, more)} :: FreeBefore(l, f, o, more)
    ensures CanSlideDown(l, o, more) ==> FreeBefore(l, l.free[Below(l.free, o) - 1], o, more)
  {
    BelowSplits(l, o);
    var i := Below(l.free, o);
    if CanSlideDown(l, o, more) {
      assert l.FreeAt(i - 1);
      assert FreeBefore(l, l.free[i - 1], o, more);
    }
    forall f: nat | FreeBefore(l, f, o, more) ensures FreeBefore(l, f, o, 8) { TileAt(l, f); }
  }

  lemma ShrinkShortens(s: State, o: nat, size: nat)
    requires s.Inv() && !s.failed && Live(s.l, o) && s.l.tiles[o].kind.Regular?
    requires size % 8 == 0 && size + 2 * HEADER <= s.l.tiles[o].len
    ensures Shortened(s.l, Shrink(s, o, size).l, o, size + 8)
    ensures Shrink(s, o, size).hwm == s.hwm && !Shrink(s, o, size).failed
  {
    hide Layout.Tiled, Layout.Listed, Insert;
    ShrinkIsOk(s, o, size);
    ShrinkRest(s.l, o, size);
    var x, m := o + HEADER + size, Mark(Cut(Mark(s.l, o, Lost), o, size + HEADER), o, Regular);
    TileAt(s.l, o);
    InsertAfterLive(m, o);
    CutFreeAfter(s.l, o, size + HEADER);
  }

  lemma CutFreeAfter(l: Layout, o: nat, len: nat)
    requires o in l.tiles && l.tiles[o].kind.Regular? && 0 < len < l.tiles[o].len
    ensures var m := Mark(Cut(Mark(l, o, Lost), o, len), o, Regular);
      && (FreeAfter(m, o + len, 8) <==> FreeAfter(l, o, 8))
      && m.End(o + len) == l.End(o)
      && (l.End(o) in l.tiles ==> l.End(o) in m.tiles && m.tiles[l.End(o)] == l.tiles[l.End(o)])
  {
  }

  /** A block freed behind an allocated one stays where it is and takes in a free block that follows. */
  lemma InsertAfterLive(m: Layout, o: nat)
    requires m.Inv() && Live(m, o) && m.End(o) in m.tiles && m.tiles[m.End(o)].kind.Lost?
    ensures var x := m.End(o); var r := Insert(m, x);
      && x in r.tiles && r.tiles[x].kind.Free?
      && r.tiles[x].len == m.tiles[x].len + if FreeAfter(m, x, 8) then m.tiles[m.End(x)].len else 0
  {
    var x := m.End(o);
    var i := Below(m.free, x);
    LostSplits(m, x);
    NoJoinBelow(m, o, i);
    TileAt(m, x);
    hide Layout.Tiled, Layout.Listed;
    if i < |m.free| && JoinsAbove(m, i, x) {
      TakeInAboveInv(m, i, x);
      var up := TakeInAbove(m, i, x);
      TakeInAboveSame(m, i, x);
      assert up.End(o) == x;
      NoJoinBelow(up, o, i);
    }
  }

  /** No free block ends where an allocated one does. */
  lemma NoJoinBelow(m: Layout, o: nat, i: nat)
    requires m.Inv() && Live(m, o)
    ensures !JoinsBelow(m, i, m.End(o))
  {
    if 0 < i <= |m.free| {
      var f := m.free[i - 1];
      assert m.FreeAt(i - 1) && m.TileOk(f) && m.TileOk(o) && m.Apart(f, o) && m.Apart(o, f);
    }
  }

  /** The free block that follows an unlisted tile is the first above it. */
  lemma LostSplits(m: Layout, x: nat)
    requires m.Inv() && x in m.tiles && m.tiles[x].kind.Lost?
    ensures var i := Below(m.free, x);
      && (JoinsAbove(m, i, x) <==> FreeAfter(m, x, 8)) && (JoinsAbove(m, i, x) ==> m.free[i] == m.End(x))
  {
    var i := Below(m.free, x);
    assert m.TileOk(x);
    if i < |m.free| { assert m.FreeAt(i) && m.TileOk(m.free[i]) && m.Apart(x, m.free[i]); }
    if FreeAfter(m, x, 8) {
      var e := m.End(x);
      assert m.TileOk(e);
      var j :| 0 <= j < |m.free| && m.free[j] == e;
      assert !(j < i);
      assert m.free[i] <= m.free[j];
    }
  }

  lemma ExpandLengthens(l: Layout, i: nat, o: nat, more: nat)
    requires l.Inv() && Live(l, o) && l.tiles[o].kind.Regular? && i == Below(l.free, o) && CanExpandUp(l, o, more)
    requires 0 < more && more % 8 == 0
    ensures FitsAt(l, l.End(o), more + 9) && Lengthened(l, ExpandUp(l, i, o, more), o, l.tiles[o].len + more)
  {
    hide Layout.Tiled, Layout.Listed, Below;
    HeldBetween(l, i);
    ExpandUpIsOk(l, i, o, more);
    var f := l.free[i];
    var h := Hold(Mark(l, o, Lost), i);
    var g := Mark(Give(Cut(h, f, more), i, f + more), f, Lost);
    assert Portion(h, i, f, more, Lost) == g;
    assert g.End(o) == f && g.tiles[f + more] == Tile(l.tiles[f].len - more, Free);
    assert ExpandUp(l, i, o, more) == Mark(Fuse(g, o), o, Regular);
  }

  /** What resizing a small block comes to: it stays, with another size, or gives way to a block for n bytes. */
  ghost predicate Retagged(s: State, p: nat, n: nat, size: nat, small: bool, cfg: Config, r: Outcome)
    requires s.Inv() && LiveAt(s.l, p)
  {
    if small && cfg.bitmaps && n <= 128 && s.l.tiles[p - 8].len == size + 8 then
      && r.Block? && r.p == p && r.s.hwm == s.hwm && r.s.failed == s.failed && r.s.l.free == s.l.free
      && p - 8 in r.s.l.tiles && r.s.l.tiles[p - 8] == Tile(size + 8, Small(n))
      && (forall x: nat {:trigger SameTile(s.l, r.s.l, x)} :: x != p - 8 ==> SameTile(s.l, r.s.l, x))
    else
      GivesWay(s, p, n, small, cfg, r)
  }

  /** A small block is resized where it is exactly if small blocks are asked for and the class is the same. */
  lemma SmallReroutes(s: State, p: nat, n: nat, size: nat, small: bool, cfg: Config)
    requires s.Inv() && LiveAt(s.l, p) && s.l.tiles[p - HEADER].kind.Small? && n <= 0xFFFF_FFF8
    requires Serves(size, n, small && cfg.bitmaps)
    ensures Retagged(s, p, n, size, small, cfg, Reallocation(s, p, n, small, cfg))
  {
    hide Layout.Tiled, Layout.Listed, Allocation, Release;
    TileAt(s.l, p - HEADER);
  }

  /** The outcome of resizing the block at p to n bytes, whichever kind it is. */
  ghost predicate Routed(s: State, p: nat, n: nat, small: bool, cfg: Config, r: Outcome)
    requires s.Inv() && LiveAt(s.l, p)
  {
    if s.l.tiles[p - HEADER].kind.Regular? then Rerouted(s, p, BlockSize(n, false), small, cfg, r)
    else Retagged(s, p, n, BlockSize(n, small && cfg.bitmaps), small, cfg, r)
  }

  lemma ReallocationRoutes(s: State, p: nat, n: nat, small: bool, cfg: Config)
    requires s.Inv() && !s.failed && LiveAt(s.l, p) && n <= 0xFFFF_FFF8
    ensures Routed(s, p, n, small, cfg, Reallocation(s, p, n, small, cfg))
  {
    hide Layout.Tiled, Layout.Listed, Serves, BlockSize, Rerouted, Retagged, Reallocation;
    if s.l.tiles[p - HEADER].kind.Regular? {
      RegularReroutes(s, p, n, BlockSize(n, false), small, cfg);
    } else {
      SmallReroutes(s, p, n, BlockSize(n, small && cfg.bitmaps), small, cfg);
    }
  }

  /** The outcome of allocating n bytes. */
  ghost predicate Allotted(s: State, n: nat, small: bool, cfg: Config, r: Outcome)
    requires s.Inv()
  {
    Served(s, n, BlockSize(n, small && cfg.bitmaps), small && cfg.bitmaps, cfg, true, r)
  }

  lemma AllocationAllots(s: State, n: nat, small: bool, cfg: Config)
    requires s.Inv() && !s.failed && 0 < n <= 0xFFFF_FFF8
    ensures Allotted(s, n, small, cfg, Allocation(s, n, small, cfg, true))
  {
    hide Layout.Tiled, Layout.Listed, Serves, BlockSize, Served, Allocation;
    AllocationServes(s, n, BlockSize(n, small && cfg.bitmaps), small, cfg, true);
  }

  /** A small block that is freed is the next of its class to be given. */
  lemma FreedSmallIsNext(s: State, p: nat, n: nat, size: nat, cfg: Config, inPlace: bool)
    requires s.Inv() && !s.failed && LiveAt(s.l, p) && s.l.tiles[p - HEADER].kind.Small? && cfg.bitmaps
    requires 0 < n <= 128 && Serves(size, n, true) && s.l.tiles[p - HEADER].len == size + 8
    ensures Release(s, p).Inv()
    ensures var r := Allocation(Release(s, p), n, true, cfg, inPlace);
      r.Block? && r.p == p && r.s.hwm == s.hwm && r.s.l.free == s.l.free && r.s.l.idle == s.l.idle
      && r.s.l.tiles == s.l.tiles[p - 8 := Tile(size + 8, Small(n))]
  {
    TileAt(s.l, p - HEADER);
    ReleaseIsOk(s, p);
    hide Layout.Tiled, Layout.Listed;
  }

  /** Nor does resizing. */
  lemma ReallocationWithin(s: State, p: nat, n: nat, small: bool, cfg: Config)
    requires s.Inv() && LiveAt(s.l, p) && n <= 0xFFFF_FFF8
    ensures var r := Reallocation(s, p, n, small, cfg); r.Block? ==> r.s.l.full <= Max(s.l.full, cfg.limit)
  {
    hide Layout.Tiled, Layout.Listed, Align8, Allocation, Release, Resized, CanStay;
    Align8Covers(n);
    if s.l.tiles[p - HEADER].kind.Regular? && CanStay(s.l, p - HEADER, Align8(n)) {
      ResizedWithin(s, p - HEADER, Align8(n));
    } else {
      MovedWithin(s, p, n, small, cfg);
      MovedWithin(s, p, Align8(n), small, cfg);
    }
  }

  lemma MovedWithin(s: State, p: nat, n: nat, small: bool, cfg: Config)
    requires s.Inv() && LiveAt(s.l, p) && n <= 0xFFFF_FFF8
    ensures var r := Moved(s, p, n, small, cfg); r.Block? ==> r.s.l.full <= Max(s.l.full, cfg.limit)
  {
    hide Layout.Tiled, Layout.Listed, Allocation, Release;
    AllocationWithin(s, n, small, cfg, true);
    AllocationIsOk(s, n, small, cfg, true);
    assert Live(s.l, p - HEADER);
    var r := Allocation(s, n, small, cfg, true);
    if r.Block? { ReleaseIsOk(r.s, p); }
  }

  lemma ResizedWithin(s: State, o: nat, size: nat)
    requires s.Inv() && Live(s.l, o) && s.l.tiles[o].kind.Regular? && size % 8 == 0 && CanStay(s.l, o, size)
    ensures Resized(s, o, size).Block? && Resized(s, o, size).s.l.full == s.l.full
  {
    hide Layout.Tiled, Layout.Listed, Shrink, ExpandUp, SlideDown;
    TileAt(s.l, o);
    var more, i := size + HEADER - s.l.tiles[o].len, Below(s.l.free, o);
    if more < 0 {
      ShrinkIsOk(s, o, size);
    } else if more > 0 {
      if CanExpandUp(s.l, o, more) {
        TileAt(s.l, s.l.free[i]);
        ExpandUpIsOk(s.l, i, o, more);
      } else {
        SlideDownIsOk(s.l, i, o, size);
      }
    }
  }

  // ---- What a block is given, and why there is none ----

  /** The block at p was given for n bytes: it has them, and not 8 more. */
  ghost predicate Exactly(l: Layout, p: nat, n: nat) {
    LiveAt(l, p) && n <= Recorded(l.tiles[p - HEADER]) < n + 8
  }

  lemma GivenExactly(s: State, n: nat, small: bool, cfg: Config)
    requires s.Inv() && 0 < n <= 0xFFFF_FFF8
    ensures var r := Allocation(s, n, small, cfg, true); r.Block? ==> Exactly(r.s.l, r.p, n)
  {
    hide Layout.Tiled, Layout.Listed, Allocation, Align8;
    AllocationIsOk(s, n, small, cfg, true);
    Align8Covers(n);
  }

  /** The block at p is one allocated for n bytes: a small one that records n, or one of its own. */
  ghost predicate GivenFor(l: Layout, p: nat, n: nat, small: bool) {
    Exactly(l, p, n) && l.tiles[p - HEADER].kind == if small && n <= 128 then Small(n) else Regular
  }

  lemma AllocationGives(s: State, n: nat, small: bool, cfg: Config)
    requires s.Inv() && 0 < n <= 0xFFFF_FFF8
    ensures var r := Allocation(s, n, small, cfg, true); r.Block? ==> GivenFor(r.s.l, r.p, n, small && cfg.bitmaps)
  {
    hide Layout.Tiled, Layout.Listed, Allocation, NoneFits, AskedFor, MarkAfter, LowestFit;
    GivenExactly(s, n, small, cfg);
    AllocationIsOk(s, n, small, cfg, true);
    if !s.failed {
      var size := BlockSize(n, small && cfg.bitmaps);
      AllocationServes(s, n, size, small, cfg, true);
    }
  }

  lemma ResizedExactly(s: State, p: nat, n: nat, small: bool, cfg: Config)
    requires s.Inv() && LiveAt(s.l, p) && 0 < n <= 0xFFFF_FFF8
    ensures var r := Reallocation(s, p, n, small, cfg); r.Block? ==> Exactly(r.s.l, r.p, n)
  {
    hide Layout.Tiled, Layout.Listed, Reallocation, Align8;
    ReallocationIsOk(s, p, n, small, cfg);
    Align8Covers(n);
  }

  /** Memory was not to be had: the buffer has failed, and either had before or cannot grow. */
  ghost predicate OutOfMemory(s: State, t: State, cfg: Config) {
    t.failed && (s.failed || !cfg.movable)
  }

  lemma NoBlockNoMemory(s: State, n: nat, small: bool, cfg: Config)
    requires s.Inv() && 0 < n <= 0xFFFF_FFF8
    ensures var r := Allocation(s, n, small, cfg, true);
      (r.Null? ==> OutOfMemory(s, r.s, cfg)) && (r.Block? ==> !s.failed && !r.s.failed)
  {
    hide Allocation, Layout.Tiled, Layout.Listed;
    AllocationIsOk(s, n, small, cfg, true);
    if s.failed { NoneWanted(s, n, small, cfg, true); } else { NoBlockFails(s, n, small, cfg, true); }
  }

  lemma NotResizedNoMemory(s: State, p: nat, n: nat, small: bool, cfg: Config)
    requires s.Inv() && LiveAt(s.l, p) && 0 < n <= 0xFFFF_FFF8
    ensures var r := Reallocation(s, p, n, small, cfg); r.Null? ==> OutOfMemory(s, r.s, cfg)
  {
    hide Allocation, Layout.Tiled, Layout.Listed, Align8, CanStay, Release, Resized;
    Align8Covers(n);
    NoBlockNoMemory(s, n, small, cfg);
    NoBlockNoMemory(s, Align8(n), small, cfg);
    if s.l.tiles[p - HEADER].kind.Regular? && CanStay(s.l, p - HEADER, Align8(n)) {
      ResizedWithin(s, p - HEADER, Align8(n));
    }
  }

  // ---- Freeing ----

  /** All bytes from lo up to hi are in the free block at f. */
  ghost predicate FreeSpan(l: Layout, f: nat, lo: nat, hi: nat) {
    f in l.tiles && l.tiles[f].kind.Free? && f <= lo && hi <= l.End(f)
  }

  /** Freeing a regular block leaves its bytes in one free block, all or all but 8, and mark and class lists alone. */
  lemma FreedIsFree(s: State, p: nat) returns (f: nat)
    requires s.Inv() && !s.failed && LiveAt(s.l, p) && s.l.tiles[p - HEADER].kind.Regular?
    ensures var t := Release(s, p); FreeSpan(t.l, f, p - HEADER, s.l.End(p - HEADER) - Loss(s, p))
    ensures Release(s, p).hwm == s.hwm && !Release(s, p).failed && Release(s, p).l.idle == s.l.idle
    ensures Loss(s, p) == 0 || (Loss(s, p) == 8 && !AnyFreeAbove(s.l, p - 8) && FreeBefore(s.l, f, p - 8, 8))
  {
    var o := p - HEADER;
    MarkInv(s.l, o, Lost);
    var m := Mark(s.l, o, Lost);
    f := InsertedSpan(m, o);
    TileAt(s.l, o);
    BelowSplits(s.l, o);
  }

  lemma InsertedSpan(m: Layout, o: nat) returns (f: nat)
    requires m.Inv() && o in m.tiles && m.tiles[o].kind.Lost?
    ensures FreeSpan(Insert(m, o), f, o, m.End(o) - if ShortTail(m, o) then 8 else 0) && Insert(m, o).idle == m.idle
    ensures ShortTail(m, o) ==> JoinsBelow(m, Below(m.free, o), o) && f == m.free[Below(m.free, o) - 1]
  {
    hide Layout.Tiled, Layout.Listed, Below, JoinBelow, JoinBelowShort, Give, TakeInAbove, FreeSpan;
    var i := Below(m.free, o);
    f := if JoinsBelow(m, i, o) then m.free[i - 1] else o;
    TileAt(m, o);
    if i == |m.free| {
      if JoinsBelow(m, i, o) { ShortSpan(m, i, o); } else { GivenSpan(m, i, o); }
    } else {
      if JoinsAbove(m, i, o) { UpSpan(m, i, o); }
      var up := if JoinsAbove(m, i, o) then TakeInAbove(m, i, o) else m;
      if JoinsBelow(up, i, o) { JoinedSpan(up, i, o); } else { GivenSpan(up, i, o); }
      SpanWithin(Insert(m, o), f, o, up.End(o), m.End(o));
    }
  }

  lemma SpanWithin(l: Layout, f: nat, lo: nat, hi: nat, less: nat)
    requires FreeSpan(l, f, lo, hi) && less <= hi
    ensures FreeSpan(l, f, lo, less)
  {
  }

  lemma ShortSpan(m: Layout, i: nat, o: nat)
    requires JoinsBelow(m, i, o) && o in m.tiles && HEADER <= m.tiles[o].len
    ensures var r := JoinBelowShort(m, i, o); FreeSpan(r, m.free[i - 1], o, m.End(o) - 8) && r.idle == m.idle
  {
  }

  lemma GivenSpan(m: Layout, i: nat, o: nat)
    requires i <= |m.free| && o in m.tiles
    ensures FreeSpan(Give(m, i, o), o, o, m.End(o)) && Give(m, i, o).idle == m.idle
  {
  }

  lemma JoinedSpan(m: Layout, i: nat, o: nat)
    requires JoinsBelow(m, i, o) && o in m.tiles
    ensures FreeSpan(JoinBelow(m, i, o), m.free[i - 1], o, m.End(o)) && JoinBelow(m, i, o).idle == m.idle
  {
  }

  lemma UpSpan(m: Layout, i: nat, o: nat)
    requires m.Inv() && JoinsAbove(m, i, o) && m.tiles[o].kind.Lost?
    ensures var up := TakeInAbove(m, i, o);
      && o in up.tiles && up.End(o) >= m.End(o) && up.idle == m.idle
      && (JoinsBelow(up, i, o) <==> JoinsBelow(m, i, o))
      && (i > 0 ==> i <= |up.free| && up.free[i - 1] == m.free[i - 1])
  {
    HeldBetween(m, i);
    TileAt(m, o);
    if i > 0 { HeldBetween(m, i - 1); }
    hide Layout.Tiled, Layout.Listed;
  }
}
