/** Allocated blocks as their users see them: room for what was asked for, and what passes from one
    moment to another. */
module AllocatedBlocks {
  import opened Bytes
  import opened Layouts
  import opened HeapSpec
  import opened HeapMemory
  import opened HeapRuns
  import opened PayloadBuffers

  /** At least n bytes were asked for when the block at p was allocated or resized. */
  ghost predicate Room(l: Layout, p: nat, n: nat) {
    LiveAt(l, p) && n <= Recorded(l.tiles[p - HEADER])
  }

  lemma RoomInside(l: Layout, p: nat, n: nat)
    requires l.Inv() && Room(l, p, n)
    ensures p + n <= l.End(p - HEADER) <= l.full
  {
    assert l.TileOk(p - HEADER);
  }

  lemma TilesApart(l: Layout, a: nat, b: nat)
    requires l.Inv() && Live(l, a) && Live(l, b) && a != b
    ensures l.End(a) <= b || l.End(b) <= a
  {
    assert l.Apart(a, b) && l.Apart(b, a);
  }

  /** Every allocated block of l but the one at `but` is the same in g, contents included. */
  ghost predicate Passed(m: seq<byte>, r: seq<byte>, l: Layout, g: Layout, but: int) {
    Keeps(l, g, but) && Kept(m, r, l, but) && |m| == l.full <= |r| == g.full
  }

  lemma PassedBlock(m: seq<byte>, r: seq<byte>, l: Layout, g: Layout, but: int, o: nat)
    requires l.Inv() && Passed(m, r, l, g, but) && Live(l, o) && o != but
    ensures Live(g, o) && g.tiles[o] == l.tiles[o] && Same(m, r, o + HEADER, l.End(o))
    ensures o + HEADER <= l.End(o) <= |m| && g.End(o) == l.End(o)
  {
    assert l.TileOk(o);
  }

  lemma PassedRoom(m: seq<byte>, r: seq<byte>, l: Layout, g: Layout, but: int, p: nat, n: nat)
    requires l.Inv() && Passed(m, r, l, g, but) && Room(l, p, n) && p - HEADER != but
    ensures Room(g, p, n) && p + n <= |m| && Same(m, r, p, p + n)
  {
    PassedBlock(m, r, l, g, but, p - HEADER);
    RoomInside(l, p, n);
  }

  lemma PassedSizes(m: seq<byte>, r: seq<byte>, l: Layout, g: Layout, but: int)
    requires Passed(m, r, l, g, but)
    ensures |m| == l.full <= |r| == g.full
  {
  }

  lemma FailPasses(s: State, m: seq<byte>)
    requires s.Inv() && |m| == s.l.full
    ensures Passed(m, m, s.l, Fail(s).l, -1)
  {
    DropKeeps(s.l);
  }

  /** An allocation passes every block and gives one with room for what was asked for. */
  lemma AllocationPasses(s: State, n: nat, small: bool, cfg: Config, p: nat, t: State, m: seq<byte>, r: seq<byte>)
    requires s.Inv() && 0 < n <= MAX_REQUEST && |m| == s.l.full && |r| == t.l.full && Kept(m, r, s.l, -1)
    requires Gives(Allocation(s, n, small, cfg, true), p, true, t)
    requires AllocationOk(s, Allocation(s, n, small, cfg, true), n)
    ensures Passed(m, r, s.l, t.l, -1)
    ensures p != 0 ==> Room(t.l, p, n) && !LiveAt(s.l, p)
  {
    hide Allocation, Align8;
    Align8Covers(n);
  }

  /** An allocation or resizing gives a block for n bytes and passes every block but the resized one. */
  lemma BlockGiven(s: State, t: State, small: bool, clear: bool, cfg: Config, p: nat, q: nat, n: nat, m: seq<byte>,
        r: seq<byte>)
    requires s.Inv() && |m| == s.l.full && |r| == t.l.full && 0 < n <= MAX_REQUEST && p != 0
    requires LiveAt(s.l, p) && Gives(Reallocation(s, p, n, small, cfg), q, true, t)
    requires Brings(m, r, s.l, p, q, Recorded(s.l.tiles[p - HEADER]), n, clear)
    ensures q == 0 ==> Reallocation(s, p, n, small, cfg).Null? && Passed(m, r, s.l, t.l, -1)
    ensures q != 0 ==> Passed(m, r, s.l, t.l, p - HEADER) && Room(t.l, q, n) && (q == p || !LiveAt(s.l, q))
  {
    hide Reallocation, Layout.Tiled, Layout.Listed, Kept, Keeps, Align8, Carried;
    Align8Covers(n);
    ReallocationIsOk(s, p, n, small, cfg);
  }

  lemma SizeIs(m: seq<byte>, l: Layout, head: nat, heads: seq<nat>)
    requires Agrees(m, head, heads, l, NONE)
    ensures |m| == l.full
  {
  }

  /** Every allocated block but the one at `own` is as it was, but for the `width` bytes of a header inside `home`. */
  ghost predicate Aside(m: seq<byte>, r: seq<byte>, l: Layout, g: Layout, home: nat, header: nat, width: nat,
        own: int) {
    && |m| <= |r|
    && forall o: nat {:trigger AsideBlock(m, r, l, g, home, header, width, own, o)} ::
      AsideBlock(m, r, l, g, home, header, width, own, o)
  }

  ghost predicate AsideBlock(m: seq<byte>, r: seq<byte>, l: Layout, g: Layout, home: nat, header: nat, width: nat,
        own: int, o: nat) {
    Live(l, o) && o != own ==>
      && o in g.tiles && g.tiles[o] == l.tiles[o]
      && Same(m, r, o + HEADER, if o == home then header else l.End(o))
      && (o == home ==> Same(m, r, header + width, l.End(o)))
  }

  lemma AsideAnyway(m: seq<byte>, r: seq<byte>, l: Layout, g: Layout, home: nat, header: nat, width: nat, own: int)
    requires Aside(m, r, l, g, home, header, width, -1)
    ensures Aside(m, r, l, g, home, header, width, own)
  {
    forall o: nat ensures AsideBlock(m, r, l, g, home, header, width, own, o) {
      assert AsideBlock(m, r, l, g, home, header, width, -1, o);
    }
  }

  lemma PassedAside(m: seq<byte>, r: seq<byte>, l: Layout, g: Layout, home: nat, header: nat, width: nat)
    requires l.Inv() && Passed(m, r, l, g, -1) && Live(l, home) && home + HEADER <= header
    requires header + width <= l.End(home)
    ensures Aside(m, r, l, g, home, header, width, -1)
  {
    hide Layout.Tiled, Layout.Listed, Passed;
    PassedSizes(m, r, l, g, -1);
    forall o: nat ensures AsideBlock(m, r, l, g, home, header, width, -1, o) {
      if Live(l, o) { PassedBlock(m, r, l, g, -1, o); }
    }
  }

  /** Writing in the block at q, which is new or the one resized, and then the header. */
  lemma WrittenAside(m0: seq<byte>, m: seq<byte>, m1: seq<byte>, r: seq<byte>, l: Layout, g: Layout,
                     home: nat, header: nat, width: nat, but: int, q: nat, end: nat)
    requires l.Inv() && g.Inv() && Passed(m0, m, l, g, but) && Live(l, home) && home + HEADER <= header
    requires header + width <= l.End(home)
    requires LiveAt(g, q) && q <= end <= g.End(q - HEADER) && (but == q - HEADER || !LiveAt(l, q)) && but != home
    requires OnlyIn(m, m1, q, end) && OnlyIn(m1, r, header, header + width)
    ensures Aside(m0, r, l, g, home, header, width, but)
  {
    hide Layout.Tiled, Layout.Listed, Passed;
    PassedSizes(m0, m, l, g, but);
    forall o: nat ensures AsideBlock(m0, r, l, g, home, header, width, but, o) {
      if Live(l, o) && o != but {
        PassedBlock(m0, m, l, g, but, o);
        TilesApart(g, o, q - HEADER);
        if o != home { TilesApart(l, o, home); }
      }
    }
  }

  /** Writing the header alone. */
  lemma HeaderAside(m0: seq<byte>, m: seq<byte>, r: seq<byte>, l: Layout, g: Layout, home: nat, header: nat, width: nat,
        but: int)
    requires l.Inv() && Passed(m0, m, l, g, but) && Live(l, home) && home + HEADER <= header
    requires header + width <= l.End(home)
    requires but != home && OnlyIn(m, r, header, header + width)
    ensures Aside(m0, r, l, g, home, header, width, but)
  {
    hide Layout.Tiled, Layout.Listed, Passed;
    PassedSizes(m0, m, l, g, but);
    forall o: nat ensures AsideBlock(m0, r, l, g, home, header, width, but, o) {
      if Live(l, o) && o != but {
        PassedBlock(m0, m, l, g, but, o);
        if o != home { TilesApart(l, o, home); }
      }
    }
  }

  // ---- Requests that wrap ----

  /** A block that was given has room for the bytes asked for unless rounding them up wrapped to 0. */
  lemma GivenRoomExactly(s: State, n: nat, small: bool, cfg: Config)
    requires s.Inv() && 0 < n < WORD_LIMIT
    ensures var r := Allocation(s, n, small, cfg, true);
      r.Block? ==> LiveAt(r.s.l, r.p) && (Room(r.s.l, r.p, n) <==> n <= MAX_REQUEST)
  {
    hide Allocation, Layout.Tiled, Layout.Listed, Align8, Keeps;
    Align8Covers(n);
    AllocationIsOk(s, n, small, cfg, true);
    var r := Allocation(s, n, small, cfg, true);
    if r.Block? { TileAt(r.s.l, r.p - HEADER); }
  }

  /** The same for resizing a block; one whose size wraps is left with no bytes, or moved to a block that has none. */
  lemma ResizedRoomExactly(s: State, p: nat, n: nat, small: bool, cfg: Config)
    requires s.Inv() && LiveAt(s.l, p) && 0 < n < WORD_LIMIT
    ensures var r := Reallocation(s, p, n, small, cfg);
      r.Block? ==>
        LiveAt(r.s.l, r.p)
        && (Room(r.s.l, r.p, n) <==> n <= MAX_REQUEST)
        && (n > MAX_REQUEST ==> Recorded(r.s.l.tiles[r.p - HEADER]) == 0)
  {
    hide Reallocation, Layout.Tiled, Layout.Listed, Align8, Keeps;
    Align8Covers(n);
    ReallocationIsOk(s, p, n, small, cfg);
    var r := Reallocation(s, p, n, small, cfg);
    if r.Block? { TileAt(r.s.l, r.p - HEADER); }
  }

  /** Asking for nearly 4 GB for the block of 16 bytes at 48 takes its bytes away. */
  lemma ResizingCanEmpty(cfg: Config)
    ensures FirstBlock().Inv() && LiveAt(FirstBlock().l, 48) && Recorded(FirstBlock().l.tiles[40]) == 16
    ensures var r := Reallocation(FirstBlock(), 48, 0xFFFF_FFFC, true, cfg);
      r.Block? && r.p == 48 && LiveAt(r.s.l, r.p) && Recorded(r.s.l.tiles[r.p - HEADER]) == 0
  {
    hide Layout.Tiled, Layout.Listed, Align8, Reallocation;
    var s := FirstBlock();
    FirstBlockInv();
    Align8Covers(0xFFFF_FFFC);
    ResizedRoomExactly(s, 48, 0xFFFF_FFFC, true, cfg);
    StaysShorter(s, 48, 0xFFFF_FFFC, true, cfg);
  }

  /** A block that is made no longer stays where it is. */
  lemma StaysShorter(s: State, p: nat, n: nat, small: bool, cfg: Config)
    requires s.Inv() && LiveAt(s.l, p) && s.l.tiles[p - HEADER].kind.Regular?
    requires Align8(n) % 8 == 0 && Align8(n) + HEADER <= s.l.tiles[p - HEADER].len
    ensures var r := Reallocation(s, p, n, small, cfg); r.Block? && r.p == p
  {
    hide Layout.Tiled, Layout.Listed, Align8, Shrink, ExpandUp, SlideDown, CanExpandUp, CanSlideDown, Below, Moved;
    TileAt(s.l, p - HEADER);
  }

  /** A buffer of 4096 bytes with a block of 16 bytes at its start. */
  function FirstBlock(): State {
    State(Layout(40, 4096, map[40 := Tile(24, Regular), 64 := Tile(4032, Free)], [64], [[], [], [], []]), 72, false)
  }

  lemma FirstBlockInv()
    ensures FirstBlock().Inv()
  {
    var l := FirstBlock().l;
    assert l.free[0] == 64;
    assert l.TileOk(40) && l.TileOk(64);
  }

  /** Nearly 4 GB are given in a buffer of 4096 bytes. */
  lemma WrappedGetsNoRoom()
    ensures Fresh(40, 4096).Inv()
    ensures var r := Allocation(Fresh(40, 4096), 0xFFFF_FFFC, true, Config(true, false, 0), true);
      r.Block? && !Room(r.s.l, r.p, 0xFFFF_FFFC)
  {
    FreshInv(40, 4096);
    hide Layout.Tiled, Layout.Listed, Align8;
    var s, cfg := Fresh(40, 4096), Config(true, false, 0);
    GivenRoomExactly(s, 0xFFFF_FFFC, true, cfg);
    Align8Covers(0xFFFF_FFFC);
    FirstCarves(s, 40, cfg);
  }

  lemma FirstCarves(s: State, f: nat, cfg: Config)
    requires s.Inv() && !s.failed && s.l.free == [f] && f in s.l.tiles && s.l.tiles[f].len >= HEADER
    ensures Carve(s, 0, Regular, cfg, false).Block?
  {
    hide Layout.Tiled, Layout.Listed;
    assert FirstFit(s.l, HEADER, 0) == 0;
  }
}
