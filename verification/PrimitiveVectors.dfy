/**
Vectors of numbers: a header with the number of elements and the offset of one block, which grows by
resizing.  A small block's vector uses all of its size class.
*/
module PrimitiveVectors {
  import opened Bytes
  import opened Layouts
  import opened HeapSpec
  import opened HeapLaws
  import opened HeapMemory
  import opened PayloadBuffers
  import opened AllocatedBlocks

  /** The bytes of n elements. */
  function Span(n: nat, size: nat): nat {
    n * size
  }

  /** The n elements of `size` bytes at p. */
  function Items(m: seq<byte>, p: nat, size: nat, n: nat): (r: seq<seq<byte>>)
    ensures |r| == n
  {
    seq(n, i requires 0 <= i < n => Slice(m, p + i * size, size))
  }

  /** The vector's block at p, or none if p is 0, has room for its elements. */
  ghost predicate HoldsVector(m: seq<byte>, l: Layout, home: nat, header: nat, size: nat, count: nat, p: nat) {
    && |m| == l.full && Live(l, home) && home + HEADER <= header && header + 8 <= l.End(home) <= |m|
    && Get32(m, header) == count && Get32(m, header + 4) == p
    && (p == 0 ==> count == 0)
    && (p != 0 ==> LiveAt(l, p) && p - HEADER != home && Room(l, p, 1) && Room(l, p, Span(count, size)))
  }

  lemma Scaled(i: nat, n: nat, size: nat)
    requires i < n
    ensures i * size + size == (i + 1) * size <= n * size
    ensures Span(i, size) == i * size && Span(i + 1, size) == Span(i, size) + size <= Span(n, size)
  {
  }

  /** Elements whose bytes are the same are the same. */
  lemma ItemsSame(m: seq<byte>, r: seq<byte>, p: nat, q: nat, size: nat, n: nat, bytes: nat)
    requires bytes == Span(n, size) && p + bytes <= |m| && q + bytes <= |r| && Shifted(m, r, p, q, bytes)
    ensures Items(r, q, size, n) == Items(m, p, size, n)
  {
    forall i | 0 <= i < n ensures Items(r, q, size, n)[i] == Items(m, p, size, n)[i] {
      Scaled(i, n, size);
      SliceSame(m, r, p, q, bytes, i * size, size);
    }
  }

  lemma SliceSame(m: seq<byte>, r: seq<byte>, p: nat, q: nat, bytes: nat, d: nat, n: nat)
    requires p + bytes <= |m| && q + bytes <= |r| && Shifted(m, r, p, q, bytes) && d + n <= bytes
    ensures Slice(r, q + d, n) == Slice(m, p + d, n)
  {
    var y := Slice(r, q + d, n);
    forall x | 0 <= x < n ensures y[x] == Slice(m, p + d, n)[x] {
      assert r[q + d + x] == m[q + d + x - q + p];
    }
  }

  /** After what is at `but` was resized to q, or q was allocated, storing one more element and the header. */
  lemma PushWritten(m0: seq<byte>, m: seq<byte>, m1: seq<byte>, r: seq<byte>, head: nat, heads: seq<nat>, l: Layout,
        g: Layout,
                    home: nat, header: nat, size: nat, count: nat, need: nat, but: int, q: nat, at: nat, v: seq<byte>)
    requires l.Inv() && g.Inv() && Passed(m0, m, l, g, but) && Agrees(m, head, heads, g, NONE)
    requires Live(l, home) && home + HEADER <= header && header + 8 <= l.End(home) && but != home && |v| == size > 0
    requires need == Span(count + 1, size) && Room(g, q, need) && (but == q - HEADER || !LiveAt(l, q)) && q != 0
    requires at == q + Span(count, size)
    requires OnlyIn(m, m1, at, at + size) && at + size <= |m1| && m1[at..at + size] == v
    requires OnlyIn(m1, r, header, header + 8) && header + 8 <= |r| && Get32(r, header) == count + 1
    requires Get32(r, header + 4) == q
    ensures Agrees(r, head, heads, g, NONE) && HoldsVector(r, g, home, header, size, count + 1, q)
    ensures Items(r, q, size, count + 1) == Items(m, q, size, count) + [v]
    ensures Aside(m0, r, l, g, home, header, 8, but)
  {
    hide Layout.Tiled, Layout.Listed, Agrees, Passed, Items, Aside, Room, Span;
    Scaled(count, count + 1, size);
    PassedSizes(m0, m, l, g, but);
    PassedBlock(m0, m, l, g, but, home);
    RoomInside(g, q, need);
    RoomLive(g, q, need);
    RoomFewer(g, q, need, 1);
    TilesApart(g, home, q - HEADER);
    WriteAgrees(m, m1, head, heads, g, NONE, q - HEADER, at, at + size);
    WriteAgrees(m1, r, head, heads, g, NONE, home, header, header + 8);
    WrittenAside(m0, m, m1, r, l, g, home, header, 8, but, q, at + size);
    SizeIs(r, g, head, heads);
    LastItem(m, m1, r, q, size, count, at, v, header, Span(count, size));
  }

  lemma RoomLive(l: Layout, p: nat, n: nat)
    requires Room(l, p, n)
    ensures LiveAt(l, p)
  {
  }

  lemma LastItem(m: seq<byte>, m1: seq<byte>, r: seq<byte>, q: nat, size: nat, count: nat, at: nat, v: seq<byte>,
        header: nat, bytes: nat)
    requires bytes == Span(count, size) && at == q + bytes && |v| == size && at + size <= |m1| == |r| == |m|
    requires m1[at..at + size] == v
    requires OnlyIn(m, m1, at, at + size) && OnlyIn(m1, r, header, header + 8)
    requires (header + 8 <= q || at + size <= header)
    ensures Items(r, q, size, count + 1) == Items(m, q, size, count) + [v]
  {
    hide Slice;
    ItemsSame(m, r, q, q, size, count, bytes);
    SliceIs(m1, r, at, v);
    assert Items(r, q, size, count + 1) == Items(r, q, size, count) + [Slice(r, q + count * size, size)];
  }

  lemma SliceIs(m: seq<byte>, r: seq<byte>, at: nat, v: seq<byte>)
    requires at + |v| <= |m| == |r| && m[at..at + |v|] == v && Same(m, r, at, at + |v|)
    ensures Slice(r, at, |v|) == v
  {
    assert r[at..at + |v|] == m[at..at + |v|];
  }

  /** A vector none of whose blocks changed is as it was. */
  lemma VectorPassed(m: seq<byte>, r: seq<byte>, l: Layout, g: Layout, home: nat, header: nat, size: nat, count: nat,
        p: nat)
    requires l.Inv() && Passed(m, r, l, g, -1) && HoldsVector(m, l, home, header, size, count, p)
    ensures HoldsVector(r, g, home, header, size, count, p) && Items(r, p, size, count) == Items(m, p, size, count)
    ensures Aside(m, r, l, g, home, header, 8, -1)
  {
    hide Layout.Tiled, Layout.Listed, Passed, Span, Aside;
    PassedSizes(m, r, l, g, -1);
    PassedBlock(m, r, l, g, -1, home);
    PassedAside(m, r, l, g, home, header, 8);
    if p != 0 {
      PassedRoom(m, r, l, g, -1, p, 1);
      PassedRoom(m, r, l, g, -1, p, Span(count, size));
      ItemsSame(m, r, p, p, size, count, Span(count, size));
    }
  }

  lemma CountFits(count: nat, size: nat)
    requires 0 < size
    ensures Span(count + 1, size) == Span(count, size) + size && count <= Span(count, size)
    ensures (count == 0 ==> Span(count, size) == 0)
  {
    Scaled(count, count + 1, size);
  }

  /** What a vector's header and block say. */
  lemma VectorFacts(m: seq<byte>, head: nat, heads: seq<nat>, l: Layout, home: nat, header: nat, size: nat, count: nat,
        p: nat)
    requires l.Inv() && Agrees(m, head, heads, l, NONE) && HoldsVector(m, l, home, header, size, count, p)
    requires 0 < size <= 8
    ensures Span(count, size) < FLAG && Span(count + 1, size) == Span(count, size) + size && count < FLAG
    ensures |m| == l.full < FLAG
    ensures p != 0 ==> LiveAt(l, p) && p + Span(count, size) <= |m| && p < |m| && p - HEADER != home && p < FLAG
    ensures Live(l, home) && home + HEADER <= header && header + 8 <= l.End(home)
    ensures p != 0 ==> Span(count, size) <= Recorded(l.tiles[p - HEADER]) && p + Recorded(l.tiles[p - HEADER]) <= |m|
  {
    hide Layout.Tiled, Layout.Listed;
    CountFits(count, size);
    hide Span;
    if p != 0 {
      RoomInside(l, p, 1);
      RoomInside(l, p, Span(count, size));
      RoomInside(l, p, Recorded(l.tiles[p - HEADER]));
    }
  }

  /** In its size class, or within its block, the vector's block has room for one more element. */
  lemma GrownInClass(m: seq<byte>, r: seq<byte>, l: Layout, home: nat, header: nat, size: nat, count: nat, p: nat,
        recorded: nat, needed: nat)
    requires l.Inv() && HoldsVector(m, l, home, header, size, count, p) && p != 0 && |r| == |m|
    requires l.tiles[p - HEADER].kind == Small(recorded) && recorded < needed && Span(count, size) <= recorded
    requires Brings(m, r, l, p, p, recorded, needed, false)
    ensures var g := Mark(l, p - HEADER, Small(needed));
      && Passed(m, r, l, g, p - HEADER) && Room(g, p, needed) && Items(r, p, size, count) == Items(m, p, size, count)
  {
    hide Layout.Tiled, Layout.Listed, Span, Kept;
    RoomInside(l, p, recorded);
    ShiftedFewer(m, r, p, p, recorded, Span(count, size));
    ItemsSame(m, r, p, p, size, count, Span(count, size));
  }

  lemma ShiftedFewer(m: seq<byte>, r: seq<byte>, p: nat, q: nat, k: nat, n: nat)
    requires Shifted(m, r, p, q, k) && n <= k
    ensures Shifted(m, r, p, q, n)
  {
  }

  lemma PassedAlready(m: seq<byte>, l: Layout, but: int)
    requires |m| == l.full
    ensures Passed(m, m, l, l, but)
  {
  }

  /** Resizing the vector's block brings its elements along. */
  lemma GrownTo(m: seq<byte>, r: seq<byte>, l: Layout, home: nat, header: nat, size: nat, count: nat, p: nat, q: nat,
        n: nat, clear: bool)
    requires l.Inv() && HoldsVector(m, l, home, header, size, count, p) && p != 0 && q != 0
    requires Span(count, size) <= Recorded(l.tiles[p - HEADER]) && Span(count, size) <= n
    requires Brings(m, r, l, p, q, Recorded(l.tiles[p - HEADER]), n, clear)
    ensures Items(r, q, size, count) == Items(m, p, size, count)
  {
    hide Layout.Tiled, Layout.Listed, Span, Kept;
    var recorded := Recorded(l.tiles[p - HEADER]);
    ShiftedFewer(m, r, p, q, if recorded < n then recorded else n, Span(count, size));
    ItemsSame(m, r, p, q, size, count, Span(count, size));
  }

  // ---- What becomes of the heap ----

  /** The bytes a block can be used for without resizing it: a small block has those of its size class. */
  function Usable(t: Tile): int {
    if t.kind.Small? && ClassOf(t.kind.size) < CLASSES then ClassSize(ClassOf(t.kind.size)) else t.len - HEADER
  }

  /** The tile when `needed` bytes of it are used. */
  function Used(t: Tile, needed: nat): Tile {
    if t.kind.Small? && needed > t.kind.size then t.(kind := Small(needed)) else t
  }

  /** The heap when `needed` bytes of the block at p are used. */
  ghost function InUse(s: State, p: nat, needed: nat): State
    requires LiveAt(s.l, p)
  {
    s.(l := s.l.(tiles := s.l.tiles[p - HEADER := Used(s.l.tiles[p - HEADER], needed)]))
  }

  /** Making room for one more element in the block at p, or none: in place, in a first block, or in a larger one. */
  ghost function Pushing(s: State, p: nat, count: nat, size: nat, small: bool, cfg: Config): Outcome
    requires s.Inv() && (p != 0 ==> LiveAt(s.l, p))
  {
    var needed := Span(count + 1, size);
    if p != 0 && needed <= Usable(s.l.tiles[p - HEADER]) then Block(p, InUse(s, p, needed))
    else PushingSlow(s, p, needed, size, small, cfg)
  }

  /** The same, looking only at the bytes the block is recorded to have. */
  ghost function PushingSlow(s: State, p: nat, needed: nat, size: nat, small: bool, cfg: Config): Outcome
    requires s.Inv() && (p != 0 ==> LiveAt(s.l, p))
  {
    if p == 0 then Allocation(s, 2 * size, small, cfg, true)
    else if needed <= Recorded0(s.l, p) then Block(p, s)
    else Reallocation(s, p, Max(needed, Max(2 * Recorded0(s.l, p), 2 * size)), small, cfg)
  }

  /** The bytes the block at p is recorded to have, or 0 if there is none. */
  function Recorded0(l: Layout, p: nat): nat {
    if p >= HEADER && p - HEADER in l.tiles
      && Recorded(l.tiles[p - HEADER]) >= 0 then Recorded(l.tiles[p - HEADER]) else 0
  }

  /**
  The room there is at q where there was that at p, and `needed` bytes are needed: a first block is for two elements;
  a block with room, of which `room` bytes can be used, stays; any other is at least doubled, and has what is needed.
  */
  ghost predicate Outgrown(l: Layout, p: nat, g: Layout, q: nat, room: int, needed: nat, size: nat) {
    var was, now := Recorded0(l, p), Recorded0(g, q);
    if p == 0 then
      2 * size <= now < 2 * size + 8
    else if needed <= room then
      q == p && needed <= now && was <= now
    else
      && now >= 2 * was && now >= 2 * size && now >= needed
      && (now < 2 * was + 8 || now < 2 * size + 8 || now < needed + 8)
  }

  lemma PushGrows(s: State, p: nat, count: nat, size: nat, small: bool, cfg: Config)
    requires s.Inv() && (p != 0 ==> LiveAt(s.l, p)) && s.l.full < FLAG && 0 < size <= 8
    requires if p == 0 then count == 0 else Span(count, size) <= Recorded0(s.l, p)
    ensures var r := Pushing(s, p, count, size, small, cfg); var needed := Span(count + 1, size);
      r.Block? ==> Outgrown(s.l, p, r.s.l, r.p, if p == 0 then 0 else Usable(s.l.tiles[p - HEADER]), needed, size)
    ensures var r := Pushing(s, p, count, size, small, cfg);
      (r.Block? ==> LiveAt(r.s.l, r.p)) && (r.Null? ==> OutOfMemory(s, r.s, cfg))
  {
    hide Layout.Tiled, Layout.Listed, Allocation, Reallocation, Span, Recorded0, Outgrown;
    var needed := Span(count + 1, size);
    if p != 0 { UsableInside(s.l, p); }
    if p != 0 && needed <= Usable(s.l.tiles[p - HEADER]) {
      UsedMore(s, p, needed, size);
    } else {
      if p != 0 { NoRoom(s.l, p, needed, size); }
      PushSlowGrows(s, p, count, size, small, cfg);
      var r := PushingSlow(s, p, needed, size, small, cfg);
      if r.Block? {
        HowLittleRoom(s.l, p, r.s.l, r.p, Recorded0(s.l, p),
          if p == 0 then 0 else Usable(s.l.tiles[p - HEADER]), needed, size);
      }
    }
  }

  /** A push without room allocates two elements' bytes, or resizes the block to what is needed or twice what it is. */
  lemma PushRoutes(s: State, p: nat, count: nat, size: nat, small: bool, cfg: Config)
    requires s.Inv() && !s.failed && (p != 0 ==> LiveAt(s.l, p)) && s.l.full < FLAG && 0 < size <= 8
    requires if p == 0 then count == 0 else Span(count, size) <= Recorded0(s.l, p)
    ensures var r := Pushing(s, p, count, size, small, cfg); var needed := (count + 1) * size;
      if p == 0 then
        Allotted(s, 2 * size, small, cfg, r)
      else if needed <= s.l.tiles[p - HEADER].len - 8 then
        r.Block? && r.p == p && r.s.hwm == s.hwm && r.s.l.free == s.l.free && r.s.l.idle == s.l.idle
      else
        Routed(s, p, Max(needed, Max(2 * Recorded0(s.l, p), 2 * size)), small, cfg, r)
  {
    hide Layout.Tiled, Layout.Listed, Allocation, Reallocation, Allotted, Routed, Usable;
    var needed := Span(count + 1, size);
    if p == 0 {
      AllocationAllots(s, 2 * size, small, cfg);
    } else {
      UsableIsAll(s.l, p);
      UsableInside(s.l, p);
      Scaled(count, count + 1, size);
      if needed > Usable(s.l.tiles[p - HEADER]) {
        ReallocationRoutes(s, p, Max(needed, Max(2 * Recorded0(s.l, p), 2 * size)), small, cfg);
      }
    }
  }

  lemma HowLittleRoom(l: Layout, p: nat, g: Layout, q: nat, a: int, b: int, needed: nat, size: nat)
    requires Outgrown(l, p, g, q, a, needed, size) && (p == 0 || (needed > a && needed > b))
    ensures Outgrown(l, p, g, q, b, needed, size)
  {
  }

  lemma NoRoom(l: Layout, p: nat, needed: nat, size: nat)
    requires l.Inv() && LiveAt(l, p) && needed > Usable(l.tiles[p - HEADER])
    ensures needed > Recorded0(l, p)
  {
    UsableInside(l, p);
  }

  lemma UsedMore(s: State, p: nat, needed: nat, size: nat)
    requires s.Inv() && LiveAt(s.l, p) && needed <= Usable(s.l.tiles[p - HEADER])
    ensures Outgrown(s.l, p, InUse(s, p, needed).l, p, Usable(s.l.tiles[p - HEADER]), needed, size)
    ensures InUse(s, p, needed).Inv() && LiveAt(InUse(s, p, needed).l, p)
  {
    var o := p - HEADER;
    UsableInside(s.l, p);
    if s.l.tiles[o].kind.Small? && needed > s.l.tiles[o].kind.size {
      SameClass(s.l.tiles[o].kind.size, needed);
      TileAt(s.l, o);
      MarkInv(s.l, o, Small(needed));
    } else {
      assert s.l.tiles[o := s.l.tiles[o]] == s.l.tiles;
    }
  }

  lemma PushSlowGrows(s: State, p: nat, count: nat, size: nat, small: bool, cfg: Config)
    requires s.Inv() && (p != 0 ==> LiveAt(s.l, p)) && s.l.full < FLAG && 0 < size <= 8
    requires if p == 0 then count == 0 else Span(count, size) <= Recorded0(s.l, p)
    ensures var needed := Span(count + 1, size); var r := PushingSlow(s, p, needed, size, small, cfg);
      r.Block? ==> Outgrown(s.l, p, r.s.l, r.p, Recorded0(s.l, p), needed, size)
    ensures var r := PushingSlow(s, p, Span(count + 1, size), size, small, cfg);
      (r.Block? ==> LiveAt(r.s.l, r.p)) && (r.Null? ==> OutOfMemory(s, r.s, cfg))
  {
    hide Layout.Tiled, Layout.Listed, Allocation, Reallocation, Align8;
    var needed := Span(count + 1, size);
    if p == 0 {
      AllocationIsOk(s, 2 * size, small, cfg, true);
      Align8Covers(2 * size);
      NoBlockNoMemory(s, 2 * size, small, cfg);
    } else {
      Scaled(count, count + 1, size);
      UsableInside(s.l, p);
      if needed > Recorded0(s.l, p) {
        var n := Max(needed, Max(2 * Recorded0(s.l, p), 2 * size));
        ReallocationIsOk(s, p, n, small, cfg);
        NotResizedNoMemory(s, p, n, small, cfg);
        Align8Covers(n);
      }
    }
  }

  /** Making room for `bytes` bytes in the block at p, or none. */
  ghost function Reserving(s: State, p: nat, bytes: nat, small: bool, cfg: Config): Outcome
    requires s.Inv() && (p != 0 ==> LiveAt(s.l, p))
  {
    if bytes <= Recorded0(s.l, p) then Block(p, s)
    else if bytes >= WORD_LIMIT then Null(Fail(s))
    else if p == 0 then Allocation(s, bytes, small, cfg, true)
    else Reallocation(s, p, bytes, small, cfg)
  }

  /** Reserving leaves a block that is long enough, and otherwise gives one of just the bytes asked for. */
  lemma ReservingIsExact(s: State, p: nat, bytes: nat, small: bool, cfg: Config)
    requires s.Inv() && (p != 0 ==> LiveAt(s.l, p))
    ensures var r := Reserving(s, p, bytes, small, cfg);
      if bytes <= Recorded0(s.l, p) then
        r == Block(p, s)
      else if bytes >= 0x1_0000_0000 then
        r.Null? && Spent(r.s)
      else
        bytes <= 0xFFFF_FFF8 ==>
          (r.Block? ==> Exactly(r.s.l, r.p, bytes)) && (r.Null? ==> OutOfMemory(s, r.s, cfg))
    ensures var r := Reserving(s, p, bytes, small, cfg);
      !s.failed && Recorded0(s.l, p) < bytes <= 0xFFFF_FFF8 ==>
        if p == 0 then Allotted(s, bytes, small, cfg, r) else Routed(s, p, bytes, small, cfg, r)
  {
    hide Layout.Tiled, Layout.Listed, Allocation, Reallocation, Recorded0, Allotted, Routed;
    if !s.failed && Recorded0(s.l, p) < bytes <= 0xFFFF_FFF8 {
      AllocationAllots(s, bytes, small, cfg);
      if p != 0 { ReallocationRoutes(s, p, bytes, small, cfg); }
    }
    if Recorded0(s.l, p) < bytes <= 0xFFFF_FFF8 {
      GivenExactly(s, bytes, small, cfg);
      NoBlockNoMemory(s, bytes, small, cfg);
      if p != 0 {
        ResizedExactly(s, p, bytes, small, cfg);
        NotResizedNoMemory(s, p, bytes, small, cfg);
      }
    }
  }

  /** The room that was made is for all the bytes asked for unless rounding them up wrapped; then it is for none. */
  lemma ReservedRoomExactly(s: State, p: nat, bytes: nat, small: bool, cfg: Config)
    requires s.Inv() && (p != 0 ==> LiveAt(s.l, p)) && Recorded0(s.l, p) < bytes
    ensures var r := Reserving(s, p, bytes, small, cfg);
      r.Block? ==> LiveAt(r.s.l, r.p) && (Room(r.s.l, r.p, bytes) <==> bytes <= MAX_REQUEST)
  {
    hide Layout.Tiled, Layout.Listed, Allocation, Reallocation, Align8, Recorded0;
    if bytes < WORD_LIMIT {
      if p == 0 {
        GivenRoomExactly(s, bytes, small, cfg);
      } else {
        ResizedRoomExactly(s, p, bytes, small, cfg);
      }
    }
  }

  /** Making the vector `bytes` bytes long: a length past any word is refused before it is looked at. */
  ghost function Resizing(s: State, p: nat, bytes: nat, cfg: Config): Outcome
    requires s.Inv() && (p != 0 ==> LiveAt(s.l, p))
  {
    if bytes >= WORD_LIMIT then Null(Fail(s)) else Reserving(s, p, bytes, true, cfg)
  }

  class PrimitiveVector {
    const pb: PayloadBuffer
    const header: nat
    const size: nat
    ghost const home: nat

    function Count(): nat
      requires header + 8 <= pb.mem.Length
      reads pb, pb.mem
    {
      pb.Load32(header)
    }

    function Data(): nat
      requires header + 8 <= pb.mem.Length
      reads pb, pb.mem
    {
      pb.Load32(header + 4)
    }

    ghost predicate Valid()
      reads pb, pb.mem
    {
      && pb.Valid() && 0 < size <= 8 && header + 8 <= pb.mem.Length
      && HoldsVector(pb.mem[..], pb.layout, home, header, size, Count(), Data())
    }

    /** The bytes of each element. */
    ghost function Value(): seq<seq<byte>>
      requires Valid()
      reads pb, pb.mem
    {
      Items(pb.mem[..], Data(), size, Count())
    }

    /** The tile of the vector's own block, or -1. */
    ghost function Own(): int
      requires header + 8 <= pb.mem.Length
      reads pb, pb.mem
    {
      if Data() == 0 then -1 else Data() - HEADER
    }

    /** What an operation reports, and the vector's block and the heap it leaves. */
    ghost predicate Results(r: Outcome, ok: bool, alive: bool)
      reads pb, pb.mem
    {
      match r
      case Block(q, t) => alive && ok && header + 8 <= pb.mem.Length && Data() == q && pb.St() == t
      case Null(t) => alive && !ok && pb.St() == t
      case Aborted => !alive
    }

    constructor (pb: PayloadBuffer, header: nat, size: nat, ghost home: nat)
      requires pb.Valid() && Live(pb.layout, home) && home + HEADER <= header
      requires header + 8 <= pb.layout.End(home) <= pb.mem.Length
      requires 0 < size <= 8 && pb.Load32(header) == 0 && pb.Load32(header + 4) == 0
      ensures Valid() && Value() == [] && this.pb == pb && this.header == header && this.size == size
      ensures this.home == home
    {
      this.pb, this.header, this.size, this.home := pb, header, size, home;
    }

    /** Every other block, and all of the message but the vector's header, is as it was. */
    twostate predicate OthersKept()
      requires old(header + 8 <= pb.mem.Length)
      reads pb, pb.mem
    {
      && (pb.mem == old(pb.mem) || fresh(pb.mem)) && pb.message == old(pb.message) && pb.metadata == old(pb.metadata)
      && Aside(old(pb.mem[..]), pb.mem[..], old(pb.layout), pb.layout, home, header, 8, old(Own()))
    }

    /** Stores v as the element after the first `count` of the block at q, and the header. */
    method PutItem(q: nat, count: nat, v: seq<byte>, ghost but: int, ghost m0: seq<byte>, ghost l0: Layout)
      requires pb.Valid() && 0 < size <= 8 && l0.Inv() && Passed(m0, pb.mem[..], l0, pb.layout, but) && 0 < q
      requires |v| == size
      requires Live(l0, home) && home + HEADER <= header && header + 8 <= l0.End(home) && but != home
      requires Room(pb.layout, q, Span(count + 1, size)) && (but == q - HEADER || !LiveAt(l0, q))
      requires count + 1 < WORD_LIMIT
      modifies pb.mem
      ensures Valid() && Count() == count + 1 && Data() == q && Value() == Items(old(pb.mem[..]), q, size, count) + [v]
      ensures pb.St() == old(pb.St())
      ensures Aside(m0, pb.mem[..], l0, pb.layout, home, header, 8, but)
    {
      hide Layout.Tiled, Layout.Listed, Agrees, Passed, Aside, Room, Live, Items, Span;
      ghost var m := pb.mem[..];
      Fits(m, pb.freeList, pb.bitmaps, m0, l0, pb.layout, home, header, but, q, size, count);
      var at := ItemAt(q, count);
      pb.StoreBytes(at, v);
      ghost var m1 := pb.mem[..];
      pb.StoreHeader(header, count + 1, q);
      PushWritten(m0, m, m1, pb.mem[..], pb.freeList, pb.bitmaps, l0, pb.layout, home, header, size, count,
        Span(count + 1, size), but, q, at, v);
    }

    /** Appends v in the vector's block, if it has room: a small block has that of its size class. */
    method PushInPlace(v: seq<byte>) returns (ok: bool)
      requires Valid() && |v| == size
      modifies pb, pb.mem
      ensures Valid() && OthersKept()
      ensures Value() == if ok then old(Value()) + [v] else old(Value())
      ensures ok <==>
          old(Data()) != 0
          && Span(old(Count()) + 1, size) <= Usable(old(pb.layout).tiles[old(Data()) - HEADER])
      ensures ok ==> Data() == old(Data()) && pb.St() == InUse(old(pb.St()), old(Data()), Span(old(Count()) + 1, size))
      ensures !ok ==> pb.St() == old(pb.St()) && pb.mem[..] == old(pb.mem[..])
    {
      hide Layout.Tiled, Layout.Listed, Agrees, Passed, Aside, Room, Items, Span, Brings, Used;
      ghost var m, l := pb.mem[..], pb.layout;
      NothingAside(m, l, home, header, 8, Own());
      var count, data := Count(), Data();
      VectorFacts(m, pb.freeList, pb.bitmaps, l, home, header, size, count, data);
      var needed := Span(count + 1, size);
      if data != 0 { UsableInside(l, data); }
      if data == 0 || needed > pb.fullSize || data > pb.fullSize - needed {
        return false;
      }
      LiveWords(m, pb.freeList, pb.bitmaps, l, data - HEADER);
      var sizeWord := pb.Load32(data - HEADER);
      var capacity: nat := sizeWord;
      if sizeWord >= FLAG {
        capacity := ClassSize(ClassOf(sizeWord % 256));
      }
      if needed > capacity {
        return false;
      }
      UseSlack(data, sizeWord, needed, count);
      PutItem(data, count, v, data - HEADER, m, l);
      ok := true;
    }

    /** Records in a small block's size word that `needed` bytes of its class are used. */
    method UseSlack(data: nat, sizeWord: word, needed: nat, ghost count: nat)
      requires Valid() && data == Data() != 0 && count == Count() && LiveAt(pb.layout, data)
      requires needed == Span(count + 1, size) == Span(count, size) + size
      requires sizeWord == SizeWord(pb.layout.tiles[data - HEADER])
      requires sizeWord < FLAG ==> needed <= sizeWord
      requires sizeWord >= FLAG ==> ClassOf(sizeWord % 256) < CLASSES && needed <= ClassSize(ClassOf(sizeWord % 256))
      modifies pb, pb.mem
      ensures pb.St() == InUse(old(pb.St()), data, needed)
      ensures pb.Valid() && pb.mem == old(pb.mem) && pb.message == old(pb.message) && pb.metadata == old(pb.metadata)
      ensures Passed(old(pb.mem[..]), pb.mem[..], old(pb.layout), pb.layout, data - HEADER)
      ensures Room(pb.layout, data, needed)
      ensures Items(pb.mem[..], data, size, count) == old(Value())
    {
      hide Layout.Tiled, Layout.Listed, Agrees, Passed, Items, Span, Brings;
      ghost var m, l := pb.mem[..], pb.layout;
      VectorFacts(m, pb.freeList, pb.bitmaps, l, home, header, size, count, data);
      SizeWordMeans(l, data - HEADER, sizeWord);
      PassedAlready(m, l, data - HEADER);
      if sizeWord >= FLAG && needed > sizeWord % 256 {
        SameClass(sizeWord % 256, needed);
        pb.ResizeInClass(data, sizeWord % 256, needed, false);
        GrownInClass(m, pb.mem[..], l, home, header, size, count, data, sizeWord % 256, needed);
      }
    }

    /** Appends v, in a new block or one at least twice as large if there is no room. */
    method PushSlow(v: seq<byte>, small: bool) returns (ok: bool, alive: bool)
      requires Valid() && |v| == size
      modifies pb, pb.mem
      ensures Results(PushingSlow(old(pb.St()), old(Data()), Span(old(Count()) + 1, size), size, small, pb.config), ok,
          alive)
      ensures alive ==> Valid() && OthersKept() && Value() == if ok then old(Value()) + [v] else old(Value())
    {
      hide Layout.Tiled, Layout.Listed, Agrees, Passed, Aside, Room, Items, Span, Allocation, Reallocation;
      ghost var m, l := pb.mem[..], pb.layout;
      var count, data := Count(), Data();
      VectorFacts(m, pb.freeList, pb.bitmaps, l, home, header, size, count, data);
      if data == 0 {
        ok, alive := PushFirst(v, small);
        return;
      }
      var current := pb.DecodeSize(data);
      UsableInside(l, data);
      var needed := Span(count + 1, size);
      if needed > current {
        var newSize := Max(needed, Max(current * 2, 2 * size));
        ok, alive := PushGrown(v, small, newSize);
      } else {
        PassedAlready(m, l, data - HEADER);
        StillRoom(l, data, needed);
        PutItem(data, count, v, data - HEADER, m, l);
        ok, alive := true, true;
      }
    }

    method PushFirst(v: seq<byte>, small: bool) returns (ok: bool, alive: bool)
      requires Valid() && |v| == size && Data() == 0
      modifies pb, pb.mem
      ensures Results(Allocation(old(pb.St()), 2 * size, small, pb.config, true), ok, alive)
      ensures alive ==> Valid() && OthersKept() && Value() == if ok then old(Value()) + [v] else old(Value())
    {
      hide Layout.Tiled, Layout.Listed, Agrees, Passed, Aside, Room, Items, Allocation, Kept;
      ghost var s, m := pb.St(), pb.mem[..];
      VectorFacts(m, pb.freeList, pb.bitmaps, s.l, home, header, size, 0, 0);
      AllocationIsOk(s, 2 * size, small, pb.config, true);
      var p;
      p, alive := pb.Allocate(2 * size, true, small);
      if !alive {
        return false, alive;
      }
      AllocationPasses(s, 2 * size, small, pb.config, p, pb.St(), m, pb.mem[..]);
      if p == 0 {
        VectorPassed(m, pb.mem[..], s.l, pb.layout, home, header, size, 0, 0);
        return false, true;
      }
      RoomFewer(pb.layout, p, 2 * size, Span(1, size));
      NoItems(pb.mem[..], p, size);
      NoItems(m, 0, size);
      PutItem(p, 0, v, -1, m, s.l);
      ok := true;
    }

    method PushGrown(v: seq<byte>, small: bool, newSize: nat) returns (ok: bool, alive: bool)
      requires Valid() && |v| == size && Data() != 0 && Span(Count() + 1, size) <= newSize <= MAX_REQUEST
      modifies pb, pb.mem
      ensures Results(Reallocation(old(pb.St()), old(Data()), newSize, small, pb.config), ok, alive)
      ensures alive ==> Valid() && OthersKept() && Value() == if ok then old(Value()) + [v] else old(Value())
    {
      hide Layout.Tiled, Layout.Listed, Agrees, Passed, Aside, Room, Items, Reallocation, Kept, Brings, Span;
      ghost var s, m := pb.St(), pb.mem[..];
      var count, data := Count(), Data();
      VectorFacts(m, pb.freeList, pb.bitmaps, s.l, home, header, size, count, data);
      var q;
      q, alive := pb.Realloc(data, newSize, true, small);
      if !alive {
        return false, alive;
      }
      BlockGiven(s, pb.St(), small, true, pb.config, data, q, newSize, m, pb.mem[..]);
      if q == 0 {
        VectorPassed(m, pb.mem[..], s.l, pb.layout, home, header, size, count, data);
        AsideAnyway(m, pb.mem[..], s.l, pb.layout, home, header, 8, data - HEADER);
        return false, true;
      }
      GrownTo(m, pb.mem[..], s.l, home, header, size, count, data, q, newSize, true);
      RoomFewer(pb.layout, q, newSize, Span(count + 1, size));
      PutItem(q, count, v, data - HEADER, m, s.l);
      ok := true;
    }

    /** The bytes that can be used where the elements are, or 0 if there is no block. */
    ghost function Slack(): int
      requires Valid()
      reads pb, pb.mem
    {
      if Data() == 0 then 0 else pb.layout.tiles[Data() - HEADER].len - 8
    }

    /** Appends v.  False, leaving the vector as it is, if there is no space. */
    method Push(v: seq<byte>, small: bool) returns (ok: bool, alive: bool)
      requires Valid() && |v| == size
      modifies pb, pb.mem
      ensures Results(Pushing(old(pb.St()), old(Data()), old(Count()), size, small, pb.config), ok, alive)
      ensures alive ==> Valid() && OthersKept() && Value() == if ok then old(Value()) + [v] else old(Value())
      ensures alive && ok ==>
        Outgrown(old(pb.layout), old(Data()), pb.layout, Data(), old(Slack()), Span(old(Count()) + 1, size), size)
    {
      hide Layout.Tiled, Layout.Listed, Agrees, Aside, Items, HoldsVector, InUse, PushingSlow, Usable, Span, Get32,
        Outgrown, Pushing;
      PushFacts(pb.mem[..], pb.freeList, pb.bitmaps, pb.layout, home, header, size, Count(), Data());
      PushGrows(pb.St(), Data(), Count(), size, small, pb.config);
      PushingIs(pb.St(), Data(), Count(), size, small, pb.config);
      if Data() != 0 { UsableIsAll(pb.layout, Data()); }
      alive := true;
      ok := PushInPlace(v);
      if !ok {
        ok, alive := PushSlow(v, small);
      }
    }

    // ---- Reserving, resizing and clearing ----

    /** Writes the header: `count` elements in the block at q, which has room for n. */
    method SetHeader(q: nat, count: nat, ghost n: nat, ghost but: int, ghost m0: seq<byte>, ghost l0: Layout)
      requires pb.Valid() && 0 < size <= 8 && l0.Inv() && Passed(m0, pb.mem[..], l0, pb.layout, but) && 0 < q
      requires Live(l0, home) && home + HEADER <= header && header + 8 <= l0.End(home) && but != home
      requires Room(pb.layout, q, 1) && Room(pb.layout, q, Span(count, size)) && (but == q - HEADER || !LiveAt(l0, q))
      requires count < WORD_LIMIT
      requires Room(pb.layout, q, Span(n, size))
      modifies pb.mem
      ensures Valid() && Count() == count && Data() == q && pb.St() == old(pb.St())
      ensures Items(pb.mem[..], q, size, n) == Items(old(pb.mem[..]), q, size, n)
      ensures Aside(m0, pb.mem[..], l0, pb.layout, home, header, 8, but)
      ensures Kept(old(pb.mem[..]), pb.mem[..], pb.layout, home)
    {
      hide Layout.Tiled, Layout.Listed, Agrees, Passed, Aside, Room, Items, Span;
      ghost var m := pb.mem[..];
      HeaderFits(m, pb.freeList, pb.bitmaps, m0, l0, pb.layout, home, header, but, q);
      pb.StoreHeader(header, count, q);
      HeaderWritten(m0, m, pb.mem[..], pb.freeList, pb.bitmaps, l0, pb.layout, home, header, size, count, but, q);
      HeaderKeepsItems(m, pb.mem[..], pb.layout, home, header, size, q, n);
      HeaderKeepsBlocks(m0, m, pb.mem[..], l0, pb.layout, home, header, but);
    }

    /** An allocation of more bytes than a word can count is marked as failed. */
    method TooMany()
      requires Valid()
      modifies pb, pb.mem
      ensures pb.St() == Fail(old(pb.St()))
      ensures Valid() && OthersKept() && Value() == old(Value())
    {
      hide Layout.Tiled, Layout.Listed, Agrees, Aside, Items, Span;
      ghost var s, m, count, data := pb.St(), pb.mem[..], Count(), Data();
      FailPasses(s, m);
      pb.MarkAllocationFailed();
      VectorPassed(m, pb.mem[..], s.l, pb.layout, home, header, size, count, data);
      AsideAnyway(m, pb.mem[..], s.l, pb.layout, home, header, 8, Own());
    }

    /** A new block of `bytes` bytes, for n elements, of which `count` are the vector's. */
    method NewItems(bytes: nat, count: nat, ghost n: nat, clear: bool, small: bool) returns (ok: bool, alive: bool)
      requires Valid() && Data() == 0 && 0 < bytes == Span(n, size) <= MAX_REQUEST && count <= n && n < WORD_LIMIT
      modifies pb, pb.mem
      ensures Results(Allocation(old(pb.St()), bytes, small, pb.config, true), ok, alive)
      ensures alive ==> Valid() && OthersKept() && (!ok ==> Count() == 0 && Value() == [])
      ensures alive && ok ==> Data() != 0 && Room(pb.layout, Data(), bytes) && Count() == count
      ensures alive && ok && clear ==> Items(pb.mem[..], Data(), size, n) == GrownItems(old(pb.mem[..]), 0, 0, size, n)
    {
      hide Layout.Tiled, Layout.Listed, Agrees, Passed, Aside, Room, Items, Span, Kept, Allocation, Cleared;
      ghost var s, m := pb.St(), pb.mem[..];
      VectorFacts(m, pb.freeList, pb.bitmaps, s.l, home, header, size, 0, 0);
      AllocationIsOk(s, bytes, small, pb.config, true);
      var p;
      p, alive := pb.Allocate(bytes, clear, small);
      if !alive {
        return false, alive;
      }
      AllocationPasses(s, bytes, small, pb.config, p, pb.St(), m, pb.mem[..]);
      if p == 0 {
        VectorPassed(m, pb.mem[..], s.l, pb.layout, home, header, size, 0, 0);
        NoItems(pb.mem[..], 0, size);
        return false, true;
      }
      SpanFewer(count, n, size);
      RoomFewer(pb.layout, p, bytes, Span(count, size));
      RoomFewer(pb.layout, p, bytes, 1);
      if clear { ClearedGrown(pb.mem[..], m, pb.layout, p, size, n, bytes); }
      SetHeader(p, count, n, -1, m, s.l);
      ok := true;
    }

    /** The block resized to `bytes` bytes, for n elements, of which `count` are the vector's. */
    method MoreItems(bytes: nat, count: nat, ghost n: nat, clear: bool, small: bool) returns (ok: bool, alive: bool)
      requires Valid() && Data() != 0 && 0 < bytes == Span(n, size) <= MAX_REQUEST && count <= n && n < WORD_LIMIT
      requires Recorded(pb.layout.tiles[Data() - HEADER]) < bytes && Count() <= n
      modifies pb, pb.mem
      ensures Results(Reallocation(old(pb.St()), old(Data()), bytes, small, pb.config), ok, alive)
      ensures alive ==> Valid() && OthersKept() && (!ok ==> Count() == old(Count()) && Value() == old(Value()))
      ensures alive && ok ==> Data() != 0 && Room(pb.layout, Data(), bytes) && Count() == count
      ensures alive && ok ==> Items(pb.mem[..], Data(), size, old(Count())) == old(Value())
      ensures alive && ok && clear ==>
          Items(pb.mem[..], Data(), size, n) ==
          GrownItems(old(pb.mem[..]), old(Data()), old(Recorded0(pb.layout, Data())), size, n)
    {
      hide Layout.Tiled, Layout.Listed, Agrees, Passed, Aside, Room, Items, Span, Kept, Brings, Reallocation;
      ghost var s, m := pb.St(), pb.mem[..];
      var was, data := Count(), Data();
      VectorFacts(m, pb.freeList, pb.bitmaps, s.l, home, header, size, was, data);
      var q;
      q, alive := pb.Realloc(data, bytes, clear, small);
      if !alive {
        return false, alive;
      }
      BlockGiven(s, pb.St(), small, clear, pb.config, data, q, bytes, m, pb.mem[..]);
      if q == 0 {
        VectorPassed(m, pb.mem[..], s.l, pb.layout, home, header, size, was, data);
        AsideAnyway(m, pb.mem[..], s.l, pb.layout, home, header, 8, data - HEADER);
        return false, true;
      }
      SpanFewer(was, n, size);
      SpanFewer(count, n, size);
      GrownTo(m, pb.mem[..], s.l, home, header, size, was, data, q, bytes, clear);
      if clear { GrownFits(m, pb.mem[..], s.l, pb.layout, data, q, size, n, bytes); }
      RoomFewer(pb.layout, q, bytes, Span(was, size));
      RoomFewer(pb.layout, q, bytes, Span(count, size));
      RoomFewer(pb.layout, q, bytes, 1);
      PrefixItems(pb.mem[..], q, size, was, n);
      SetHeader(q, count, n, data - HEADER, m, s.l);
      PrefixItems(pb.mem[..], q, size, was, n);
      ok := true;
    }

    /** Makes room for n elements. */
    method Reserve(n: nat, small: bool) returns (ok: bool, alive: bool)
      requires Valid() && !(MAX_REQUEST < Span(n, size) < WORD_LIMIT)
      modifies pb, pb.mem
      ensures Results(Reserving(old(pb.St()), old(Data()), Span(n, size), small, pb.config), ok, alive)
      ensures alive ==> Valid() && OthersKept() && Value() == old(Value())
      ensures alive && ok && n > 0 ==> Data() != 0 && Room(pb.layout, Data(), Span(n, size))
    {
      hide Layout.Tiled, Layout.Listed, Agrees, Aside, Room, Items, Span, Allocation, Reallocation;
      ghost var m, l := pb.mem[..], pb.layout;
      NothingAside(m, l, home, header, 8, Own());
      SpanBounds(n, size);
      HoldsBlock(m, l, home, header, size, Count(), Data());
      if n == 0 {
        return true, true;
      }
      var count, data := Count(), Data();
      VectorFacts(m, pb.freeList, pb.bitmaps, l, home, header, size, count, data);
      var bytes := Span(n, size);
      if data == 0 {
        if n > (WORD_LIMIT - 1) / size {
          TooMany();
          return false, true;
        }
        NoItems(m, 0, size);
        ok, alive := NewItems(bytes, count, n, false, small);
        if alive { NoItems(pb.mem[..], Data(), size); }
      } else {
        var current := pb.DecodeSize(data);
        StillRoom(l, data, current);
        if current >= bytes {
          RoomFewer(l, data, current, bytes);
          return true, true;
        }
        if n > (WORD_LIMIT - 1) / size {
          TooMany();
          return false, true;
        }
        CountBelow(count, n, size, current);
        ok, alive := MoreItems(bytes, count, n, false, small);
      }
    }

    /**
    Makes the vector n elements long.  New elements are zero past the bytes the block was recorded to have, but
    within them they are whatever the block held, whether or not it is resized.
    */
    method Resize(n: nat) returns (ok: bool, alive: bool)
      requires Valid() && !(MAX_REQUEST < Span(n, size) < WORD_LIMIT)
      modifies pb, pb.mem
      ensures Results(Resizing(old(pb.St()), old(Data()), Span(n, size), pb.config), ok, alive)
      ensures alive ==> Valid() && OthersKept() && (!ok ==> Value() == old(Value()))
      ensures alive && ok ==> ResizedTo(old(Value()), Value(), old(pb.mem[..]), old(Data()),
          old(Recorded0(pb.layout, Data())), size, n)
      ensures alive && ok && Span(n, size) <= old(Recorded0(pb.layout, Data()))
          ==> Kept(old(pb.mem[..]), pb.mem[..], pb.layout, home)
    {
      hide Layout.Tiled, Layout.Listed, Agrees, Aside, Room, Items, Span, Cleaned, Allocation, Reallocation,
        ResizedTo, GrownItems, Kept, HoldsVector;
      ghost var m, l := pb.mem[..], pb.layout;
      NothingAside(m, l, home, header, 8, Own());
      SpanBounds(n, size);
      HoldsBlock(m, l, home, header, size, Count(), Data());
      if n > (WORD_LIMIT - 1) / size {
        TooMany();
        return false, true;
      }
      var count, data := Count(), Data();
      GrownFacts(m, l, home, header, size, count, data, n);
      if data == 0 {
        if n == 0 {
          return true, true;
        }
        ok, alive := NewItems(Span(n, size), n, n, true, true);
        return;
      }
      var current := pb.DecodeSize(data);
      if current < Span(n, size) {
        HoldsCount(m, l, home, header, size, count, data);
        CountBelow(count, n, size, current);
        ok, alive := MoreItems(Span(n, size), n, n, true, true);
      } else {
        KeepItems(n);
        ok, alive := true, true;
      }
    }

    /** Elements that were resized away come back: made shorter and then as long as it was, the vector is unchanged. */
    method ShrinkAndRegrow(n: nat)
      requires Valid() && n <= Count()
      modifies pb, pb.mem
      ensures Valid() && Value() == old(Value()) && pb.St() == old(pb.St())
      ensures Kept(old(pb.mem[..]), pb.mem[..], pb.layout, home)
    {
      hide Layout.Tiled, Layout.Listed, Agrees, Aside, Room, Items, Span, HoldsVector, ResizedTo, GrownItems, Kept,
        Recorded0, Allocation, Reallocation;
      ghost var m, l := pb.mem[..], pb.layout;
      var count, data := Count(), Data();
      ghost var recorded := Recorded0(l, data);
      HoldsBlock(m, l, home, header, size, count, data);
      HoldsCount(m, l, home, header, size, count, data);
      SpanFewer(n, count, size);
      BelowFlag(m, pb.freeList, pb.bitmaps, l, NONE);
      RecordedInside(m, l, home, header, size, count, data);
      var ok, alive := Resize(n);
      ghost var m1 := pb.mem[..];
      ghost var was := Value();
      ok, alive := Resize(count);
      ResizedIs(was, Value(), m1, data, recorded, size, count);
      GrownKept(m, m1, l, home, header, size, count, data);
      KeptTwice(m, m1, pb.mem[..], l, home);
    }

    /** Makes the vector n elements long, in the bytes its block is recorded to have. */
    method KeepItems(n: nat)
      requires Valid() && Data() != 0 && Span(n, size) <= Recorded0(pb.layout, Data()) && n < WORD_LIMIT
      modifies pb.mem
      ensures Valid() && OthersKept() && Count() == n && Data() == old(Data()) && pb.St() == old(pb.St())
      ensures Value() == old(Items(pb.mem[..], Data(), size, n)) && Kept(old(pb.mem[..]), pb.mem[..], pb.layout, home)
    {
      hide Layout.Tiled, Layout.Listed, Agrees, Aside, Room, Items, Span, Kept;
      ghost var m, l, count := pb.mem[..], pb.layout, Count();
      var data := Data();
      HoldsBlock(m, l, home, header, size, count, data);
      VectorFacts(m, pb.freeList, pb.bitmaps, l, home, header, size, count, data);
      PassedAlready(m, l, data - HEADER);
      StillRoom(l, data, Recorded0(l, data));
      RoomFewer(l, data, Recorded0(l, data), Span(n, size));
      HasByte(m, l, home, header, size, count, data);
      SetHeader(data, n, n, data - HEADER, m, l);
    }

    /** Frees the block and leaves the vector empty. */
    method Clear()
      requires Valid()
      modifies pb, pb.mem
      ensures Valid() && Value() == [] && Data() == 0 && pb.mem == old(pb.mem)
      ensures pb.St() == if old(Data()) == 0 then old(pb.St()) else Release(old(pb.St()), old(Data()))
      ensures Aside(old(pb.mem[..]), pb.mem[..], old(pb.layout), pb.layout, home, header, 8, old(Own()))
    {
      hide Layout.Tiled, Layout.Listed, Agrees, Aside, Room, Items, Span, Release, Kept, Keeps;
      ghost var s, m := pb.St(), pb.mem[..];
      var data := Data();
      VectorFacts(m, pb.freeList, pb.bitmaps, s.l, home, header, size, Count(), data);
      PassedAlready(m, s.l, -1);
      if data != 0 {
        ReleaseIsOk(s, data);
        pb.Free(data);
        PassedRelease(s, data, m, pb.mem[..]);
      }
      ghost var m1 := pb.mem[..];
      ClearFits(m, m1, pb.freeList, pb.bitmaps, s.l, pb.layout, home, header, if data == 0 then -1 else data - HEADER);
      pb.StoreHeader(header, 0, 0);
      ClearWritten(m, m1, pb.mem[..], pb.freeList, pb.bitmaps, s.l, pb.layout, home, header, size, if data == 0
        then -1 else data - HEADER);
    }

    function ItemAt(q: nat, i: nat): nat {
      q + Span(i, size)
    }
  }

  lemma Fits(m: seq<byte>, head: nat, heads: seq<nat>, m0: seq<byte>, l0: Layout, g: Layout, home: nat, header: nat,
        but: int, q: nat, size: nat, count: nat)
    requires l0.Inv() && g.Inv() && Agrees(m, head, heads, g, NONE) && Passed(m0, m, l0, g, but) && but != home
    requires Live(l0, home) && home + HEADER <= header && header + 8 <= l0.End(home)
    requires Room(g, q, Span(count + 1, size))
    ensures q + Span(count, size) + size <= |m| && header + 8 <= |m| && q < WORD_LIMIT
  {
    hide Layout.Tiled, Layout.Listed;
    PassedBlock(m0, m, l0, g, but, home);
    RoomInside(g, q, Span(count + 1, size));
    Scaled(count, count + 1, size);
  }

  lemma NothingAside(m: seq<byte>, l: Layout, home: nat, header: nat, width: nat, own: int)
    ensures Aside(m, m, l, l, home, header, width, own)
  {
  }

  /** A block's size word says how much room it has. */
  lemma SizeWordMeans(l: Layout, o: nat, w: word)
    requires l.Inv() && Live(l, o) && w == SizeWord(l.tiles[o])
    ensures l.tiles[o].kind.Regular? ==> w == Recorded(l.tiles[o])
    ensures w >= FLAG && l.tiles[o].kind.Small? ==> l.tiles[o].kind == Small(w % 256) && Recorded(l.tiles[o]) == w % 256
    ensures w < FLAG ==> l.tiles[o].kind.Regular?
  {
    assert l.TileOk(o);
  }

  /** A size that needs no more than its class gives is in the same class. */
  /** A block can be used to its end, whatever it is recorded to have. */
  lemma UsableIsAll(l: Layout, p: nat)
    requires l.Inv() && LiveAt(l, p)
    ensures Usable(l.tiles[p - HEADER]) == l.tiles[p - HEADER].len - 8
  {
    TileAt(l, p - HEADER);
  }

  lemma PushFacts(m: seq<byte>, head: nat, heads: seq<nat>, l: Layout, home: nat, header: nat, size: nat, count: nat,
      p: nat)
    requires l.Inv() && Agrees(m, head, heads, l, NONE) && HoldsVector(m, l, home, header, size, count, p)
    ensures (p != 0 ==> LiveAt(l, p)) && l.full < FLAG
    ensures if p == 0 then count == 0 else Span(count, size) <= Recorded0(l, p)
  {
    HoldsBlock(m, l, home, header, size, count, p);
  }

  lemma PushingIs(s: State, p: nat, count: nat, size: nat, small: bool, cfg: Config)
    requires s.Inv() && (p != 0 ==> LiveAt(s.l, p))
    ensures var needed := Span(count + 1, size);
      Pushing(s, p, count, size, small, cfg) ==
        if p != 0 && needed <= Usable(s.l.tiles[p - HEADER]) then Block(p, InUse(s, p, needed))
        else PushingSlow(s, p, needed, size, small, cfg)
  {
  }

  lemma SameClass(n: nat, m: nat)
    requires ClassOf(n) < CLASSES && n < m <= ClassSize(ClassOf(n))
    ensures ClassOf(m) == ClassOf(n)
  {
  }

  lemma HoldsBlock(m: seq<byte>, l: Layout, home: nat, header: nat, size: nat, count: nat, p: nat)
    requires l.Inv() && HoldsVector(m, l, home, header, size, count, p)
    ensures p != 0 ==> LiveAt(l, p) && Recorded0(l, p) == Recorded(l.tiles[p - HEADER]) > 0
    ensures p == 0 ==> Recorded0(l, p) == 0
  {
  }

  /** A block's usable bytes are in it, and its size word says how many they are. */
  lemma UsableInside(l: Layout, p: nat)
    requires l.Inv() && LiveAt(l, p)
    ensures Usable(l.tiles[p - HEADER]) >= Recorded(l.tiles[p - HEADER]) >= 0
    ensures p + Usable(l.tiles[p - HEADER]) <= l.full
    ensures Recorded0(l, p) == Recorded(l.tiles[p - HEADER])
    ensures var k := l.tiles[p - HEADER].kind;
        k.Small?
        ==> ClassOf(k.size) < CLASSES && Usable(l.tiles[p - HEADER]) == ClassSize(ClassOf(k.size))
  {
    assert l.TileOk(p - HEADER);
  }

  lemma StillRoom(l: Layout, p: nat, n: nat)
    requires LiveAt(l, p) && n <= Recorded(l.tiles[p - HEADER])
    ensures Room(l, p, n)
  {
  }

  lemma RoomFewer(l: Layout, p: nat, n: nat, k: nat)
    requires Room(l, p, n) && k <= n
    ensures Room(l, p, k)
  {
  }

  lemma NoItems(m: seq<byte>, p: nat, size: nat)
    ensures Items(m, p, size, 0) == []
  {
  }

  // ---- Reserving and resizing ----

  /** What the first `bytes` bytes of a resized block are: those recorded at p, and zeros past them. */
  function Grown(m: seq<byte>, p: nat, recorded: nat, bytes: nat): (r: seq<byte>)
    ensures |r| == bytes
  {
    seq(bytes, i requires 0 <= i < bytes => if i < recorded && p + i < |m| then m[p + i] else 0)
  }

  /** The n elements of the block at p, resized to hold them. */
  function GrownItems(m: seq<byte>, p: nat, recorded: nat, size: nat, n: nat): (r: seq<seq<byte>>)
    ensures |r| == n
  {
    Items(Grown(m, p, recorded, Span(n, size)), 0, size, n)
  }

  /** The elements from `count` on are zero. */
  ghost predicate ZeroFrom(items: seq<seq<byte>>, size: nat, count: nat) {
    forall k {:trigger items[k]} :: count <= k < |items|
      ==> |items[k]| == size && forall x :: 0 <= x < size ==> items[k][x] == 0
  }

  function Least(a: nat, b: nat): nat {
    if a < b then a else b
  }

  /** Byte x of element k. */
  lemma ItemByte(b: seq<byte>, size: nat, n: nat, k: nat, x: nat)
    requires |b| == Span(n, size) && k < n && x < size
    ensures k * size + x < |b| && |Items(b, 0, size, n)[k]| == size && Items(b, 0, size, n)[k][x] == b[k * size + x]
  {
    Scaled(k, n, size);
  }

  /** The element and the place in it of byte i. */
  lemma ByteItem(i: nat, size: nat, count: nat, n: nat)
    requires size > 0 && Span(count, size) <= i < Span(n, size)
    ensures count <= i / size < n && 0 <= i % size < size && i / size * size + i % size == i
  {
    hide Span;
    QuotientSpan(i, size, i / size);
    if i / size < count { SpanFewer(i / size + 1, count, size); }
    if i / size >= n { SpanFewer(n, i / size, size); }
  }

  /**
  The elements that resizing adds are zero if and only if the bytes the block was recorded to have for them are.
  */
  lemma AddedAreZero(m: seq<byte>, p: nat, recorded: nat, size: nat, count: nat, n: nat)
    requires size > 0 && count <= n && p + recorded <= |m|
    ensures ZeroFrom(GrownItems(m, p, recorded, size, n), size, count)
      <==> Zeros(m, p + Span(count, size), p + Least(Span(n, size), recorded))
  {
    hide Span, Items;
    var b := Grown(m, p, recorded, Span(n, size));
    var items := GrownItems(m, p, recorded, size, n);
    if ZeroFrom(items, size, count) {
      forall i | p + Span(count, size) <= i < p + Least(Span(n, size), recorded) ensures m[i] == 0 {
        ByteItem(i - p, size, count, n);
        ItemByte(b, size, n, (i - p) / size, (i - p) % size);
      }
    }
    if Zeros(m, p + Span(count, size), p + Least(Span(n, size), recorded)) {
      forall k | count <= k < n ensures |items[k]| == size && forall x :: 0 <= x < size ==> items[k][x] == 0 {
        ItemByte(b, size, n, k, 0);
        forall x | 0 <= x < size ensures items[k][x] == 0 {
          ItemByte(b, size, n, k, x);
          SpanFewer(count, k, size);
          SpanIs(k, size);
        }
      }
    }
  }

  lemma SpanIs(k: nat, size: nat)
    ensures Span(k, size) == k * size
  {
  }

  /** Elements are where their bytes are. */
  lemma ItemsOf(r: seq<byte>, q: nat, size: nat, n: nat, bytes: nat)
    requires bytes == Span(n, size) && q + bytes <= |r|
    ensures Items(r, q, size, n) == Items(r[q..q + bytes], 0, size, n)
  {
    hide Span, Slice;
    var b := r[q..q + bytes];
    forall i | 0 <= i < n ensures Items(r, q, size, n)[i] == Items(b, 0, size, n)[i] {
      Scaled(i, n, size);
      PartSlice(r, q, bytes, i * size, size);
    }
  }

  lemma PartSlice(r: seq<byte>, q: nat, bytes: nat, d: nat, n: nat)
    requires q + bytes <= |r| && d + n <= bytes
    ensures Slice(r, q + d, n) == Slice(r[q..q + bytes], 0 + d, n)
  {
    var a, b := Slice(r, q + d, n), Slice(r[q..q + bytes], 0 + d, n);
    forall x | 0 <= x < n ensures a[x] == b[x] { assert r[q..q + bytes][d + x] == r[q + (d + x)]; }
  }

  lemma GrownSlice(m: seq<byte>, p: nat, recorded: nat, bytes: nat, d: nat, n: nat)
    requires d + n <= bytes && d + n <= recorded && p + recorded <= |m|
    ensures Slice(Grown(m, p, recorded, bytes), 0 + d, n) == Slice(m, p + d, n)
  {
  }

  /** The elements of a block that was brought to q are those of the resized one. */
  lemma BroughtGrown(m: seq<byte>, r: seq<byte>, p: nat, q: nat, recorded: nat, size: nat, n: nat, bytes: nat)
    requires Carried(m, r, p, q, recorded, bytes, true) && bytes == Span(n, size)
    requires p + recorded <= |m| && q + bytes <= |r|
    ensures Items(r, q, size, n) == GrownItems(m, p, recorded, size, n)
  {
    hide Span, Items;
    ItemsOf(r, q, size, n, bytes);
    var b := Grown(m, p, recorded, bytes);
    forall i | 0 <= i < bytes ensures r[q..q + bytes][i] == b[i] {
      if i < recorded { assert r[q + i] == m[q + i - q + p]; }
    }
    assert r[q..q + bytes] == b;
  }

  /** Within the recorded bytes nothing is resized. */
  lemma GrownWithin(m: seq<byte>, p: nat, recorded: nat, size: nat, n: nat)
    requires Span(n, size) <= recorded && p + recorded <= |m|
    ensures Items(m, p, size, n) == GrownItems(m, p, recorded, size, n)
  {
    hide Span, Items;
    ItemsOf(m, p, size, n, Span(n, size));
    assert m[p..p + Span(n, size)] == Grown(m, p, recorded, Span(n, size));
  }

  lemma GrownFits(m: seq<byte>, r: seq<byte>, l: Layout, g: Layout, p: nat, q: nat, size: nat, n: nat, bytes: nat)
    requires l.Inv() && g.Inv() && LiveAt(l, p) && Room(g, q, bytes) && bytes == Span(n, size) && q != 0
    requires |m| == l.full && |r| == g.full
    requires Brings(m, r, l, p, q, Recorded(l.tiles[p - HEADER]), bytes, true)
    ensures Items(r, q, size, n) == GrownItems(m, p, Recorded0(l, p), size, n)
  {
    hide Layout.Tiled, Layout.Listed, Span, Items, Kept, GrownItems, Carried;
    RoomInside(g, q, bytes);
    UsableInside(l, p);
    BroughtGrown(m, r, p, q, Recorded0(l, p), size, n, bytes);
  }

  /** The recorded bytes are in the buffer, and the vector's are among them. */
  lemma RecordedInside(m: seq<byte>, l: Layout, home: nat, header: nat, size: nat, count: nat, p: nat)
    requires l.Inv() && HoldsVector(m, l, home, header, size, count, p)
    ensures p + Recorded0(l, p) <= |m|
  {
    hide Layout.Tiled, Layout.Listed;
    if p != 0 { UsableInside(l, p); }
  }

  lemma KeptAlready(m: seq<byte>, l: Layout, but: int)
    ensures Kept(m, m, l, but)
  {
  }

  /** Writing the header keeps every other block whole. */
  lemma HeaderKeepsBlocks(m0: seq<byte>, m: seq<byte>, r: seq<byte>, l: Layout, g: Layout, home: nat, header: nat,
        but: int)
    requires l.Inv() && g.Inv() && Passed(m0, m, l, g, but) && but != home && Live(l, home)
    requires home + HEADER <= header && header + 8 <= l.End(home) && OnlyIn(m, r, header, header + 8)
    ensures Kept(m, r, g, home)
  {
    hide Layout.Tiled, Layout.Listed;
    PassedBlock(m0, m, l, g, but, home);
    forall o: nat | Live(g, o) && o != home ensures Same(m, r, o + HEADER, g.End(o)) { TilesApart(g, home, o); }
  }

  /** A cleared block has zeros for elements. */
  lemma ClearedGrown(m: seq<byte>, was: seq<byte>, l: Layout, q: nat, size: nat, n: nat, bytes: nat)
    requires l.Inv() && Room(l, q, bytes) && Cleared(m, l, q) && bytes == Span(n, size) && |m| == l.full
    ensures Items(m, q, size, n) == GrownItems(was, 0, 0, size, n)
  {
    hide Layout.Tiled, Layout.Listed, Span, Items;
    RoomInside(l, q, bytes);
    ItemsOf(m, q, size, n, bytes);
    assert m[q..q + bytes] == Grown(was, 0, 0, bytes);
  }

  /** The elements whose bytes start at `from` or later are zero. */
  ghost predicate Cleaned(items: seq<seq<byte>>, size: nat, from: int) {
    forall i {:trigger items[i]} :: 0 <= i < |items| && from <= i * size
      ==> |items[i]| == size && forall x :: 0 <= x < size ==> items[i][x] == 0
  }

  /**
  The elements after resizing a vector from `was` to n elements: those of the resized block.  The first are the
  vector's, and those past the recorded bytes are zero.  All that were added are zero if and only if the bytes
  recorded for them were.
  */
  ghost predicate ResizedTo(was: seq<seq<byte>>, now: seq<seq<byte>>, m: seq<byte>, p: nat, recorded: nat, size: nat,
      n: nat) {
    && now == GrownItems(m, p, recorded, size, n)
    && now[..Least(n, |was|)] == was[..Least(n, |was|)]
    && Cleaned(now, size, recorded)
    && (Span(n, size) <= recorded && p != 0 ==> now == Items(m, p, size, n))
    && (|was| <= n ==>
      (ZeroFrom(now, size, |was|) <==> Zeros(m, p + Span(|was|, size), p + Least(Span(n, size), recorded))))
  }

  /** In a vector of one number, after which its block holds a 7, the number that is added is not zero but 7. */
  lemma ResizeCanBringBack()
    ensures var m := seq(64, i => if i == 52 then 7 else 0); var items := GrownItems(m, 48, 8, 4, 2);
      ResizedTo(Items(m, 48, 4, 1), items, m, 48, 8, 4, 2) && items[1] == [7, 0, 0, 0] && !ZeroFrom(items, 4, 1)
  {
    var m := seq(64, i => if i == 52 then 7 else 0);
    hide ZeroFrom, Zeros;
    GrownPrefix(m, 48, 8, 4, 1, 2);
    GrownCleaned(m, 48, 8, 4, 2);
    AddedAreZero(m, 48, 8, 4, 1, 2);
    GrownWithin(m, 48, 8, 4, 2);
    assert m[52..56] == [7, 0, 0, 0];
    NotZero(m, 52, 56);
  }

  lemma NotZero(m: seq<byte>, lo: nat, hi: nat)
    requires lo < hi <= |m| && m[lo] != 0
    ensures !Zeros(m, lo, hi)
  {
  }

  lemma ResizedIs(was: seq<seq<byte>>, now: seq<seq<byte>>, m: seq<byte>, p: nat, recorded: nat, size: nat, n: nat)
    requires ResizedTo(was, now, m, p, recorded, size, n)
    ensures now == GrownItems(m, p, recorded, size, n)
  {
  }

  /** The vector's elements are still in its block, in which nothing was written. */
  lemma GrownKept(m: seq<byte>, m1: seq<byte>, l: Layout, home: nat, header: nat, size: nat, count: nat, p: nat)
    requires l.Inv() && HoldsVector(m, l, home, header, size, count, p) && |m1| == |m| && Kept(m, m1, l, home)
    ensures GrownItems(m1, p, Recorded0(l, p), size, count) == Items(m, p, size, count)
  {
    hide Layout.Tiled, Layout.Listed, Span, Items, GrownItems, Recorded0;
    var recorded := Recorded0(l, p);
    RecordedInside(m, l, home, header, size, count, p);
    HoldsCount(m, l, home, header, size, count, p);
    HoldsBlock(m, l, home, header, size, count, p);
    GrownWithin(m1, p, recorded, size, count);
    if p != 0 {
      StillRoom(l, p, Span(count, size));
      BlockKept(m, m1, l, home, p, Span(count, size));
      ItemsSame(m, m1, p, p, size, count, Span(count, size));
    }
  }

  lemma BlockKept(m: seq<byte>, m1: seq<byte>, l: Layout, home: nat, p: nat, n: nat)
    requires l.Inv() && Kept(m, m1, l, home) && Room(l, p, n) && p - HEADER != home && |m| == |m1| == l.full
    ensures Shifted(m, m1, p, p, n)
  {
    hide Layout.Tiled, Layout.Listed;
    RoomInside(l, p, n);
    assert Live(l, p - HEADER);
  }

  lemma KeptTwice(m: seq<byte>, m1: seq<byte>, m2: seq<byte>, l: Layout, but: int)
    requires l.Inv() && Kept(m, m1, l, but) && Kept(m1, m2, l, but) && |m| == |m1| == |m2| == l.full
    ensures Kept(m, m2, l, but)
  {
    forall o: nat | Live(l, o) && o != but ensures Same(m, m2, o + HEADER, l.End(o)) { TileAt(l, o); }
  }

  lemma GrownCleaned(m: seq<byte>, p: nat, recorded: nat, size: nat, n: nat)
    requires size > 0
    ensures Cleaned(GrownItems(m, p, recorded, size, n), size, recorded)
  {
    hide Span, Items;
    var items := GrownItems(m, p, recorded, size, n);
    forall k | 0 <= k < n && recorded <= k * size
      ensures |items[k]| == size && forall x :: 0 <= x < size ==> items[k][x] == 0 {
      ItemByte(Grown(m, p, recorded, Span(n, size)), size, n, k, 0);
      forall x | 0 <= x < size ensures items[k][x] == 0 {
        ItemByte(Grown(m, p, recorded, Span(n, size)), size, n, k, x);
      }
    }
  }

  /** The elements that lie within the recorded bytes are those that were there. */
  lemma GrownPrefix(m: seq<byte>, p: nat, recorded: nat, size: nat, k: nat, n: nat)
    requires k <= n && Span(k, size) <= recorded && p + recorded <= |m|
    ensures GrownItems(m, p, recorded, size, n)[..k] == Items(m, p, size, k)
  {
    hide Span, Slice, Grown;
    var items := GrownItems(m, p, recorded, size, n);
    forall i | 0 <= i < k ensures items[i] == Items(m, p, size, k)[i] {
      Scaled(i, k, size);
      Scaled(i, n, size);
      GrownSlice(m, p, recorded, Span(n, size), i * size, size);
    }
  }

  lemma GrownFacts(m: seq<byte>, l: Layout, home: nat, header: nat, size: nat, count: nat, p: nat, n: nat)
    requires l.Inv() && HoldsVector(m, l, home, header, size, count, p) && size > 0
    ensures var recorded := Recorded0(l, p); var items := GrownItems(m, p, recorded, size, n);
      && ResizedTo(Items(m, p, size, count), items, m, p, recorded, size, n)
      && (Span(n, size) <= recorded ==> Items(m, p, size, n) == items)
      && (p == 0 ==> count == 0 && Items(m, p, size, count) == [] && (n == 0 ==> items == []))
    ensures Kept(m, m, l, home)
  {
    hide Layout.Tiled, Layout.Listed, Span, Items, GrownItems, Cleaned, ZeroFrom, Zeros, Kept, Recorded0;
    var k, recorded := Least(n, count), Recorded0(l, p);
    RecordedInside(m, l, home, header, size, count, p);
    HoldsCount(m, l, home, header, size, count, p);
    SpanFewer(k, count, size);
    GrownPrefix(m, p, recorded, size, k, n);
    PrefixItems(m, p, size, k, count);
    GrownCleaned(m, p, recorded, size, n);
    if count <= n { AddedAreZero(m, p, recorded, size, count, n); }
    if Span(n, size) <= recorded { GrownWithin(m, p, recorded, size, n); }
    KeptAlready(m, l, home);
  }

  lemma HoldsCount(m: seq<byte>, l: Layout, home: nat, header: nat, size: nat, count: nat, p: nat)
    requires l.Inv() && HoldsVector(m, l, home, header, size, count, p)
    ensures Span(count, size) <= Recorded0(l, p)
  {
    hide Layout.Tiled, Layout.Listed;
  }

  lemma PrefixItems(m: seq<byte>, p: nat, size: nat, k: nat, n: nat)
    requires k <= n
    ensures Items(m, p, size, k) == Items(m, p, size, n)[..k]
  {
  }

  lemma SpanFewer(k: nat, n: nat, size: nat)
    requires k <= n
    ensures Span(k, size) <= Span(n, size)
  {
    assert k * size <= n * size;
  }

  /** The test made before multiplying is that the product fits in a word. */
  lemma SpanBounds(n: nat, size: nat)
    requires size > 0
    ensures n <= (WORD_LIMIT - 1) / size <==> Span(n, size) < WORD_LIMIT
    ensures n <= Span(n, size) && (n > 0 <==> Span(n, size) > 0)
  {
    hide Span;
    var q := (WORD_LIMIT - 1) / size;
    QuotientSpan(WORD_LIMIT - 1, size, q);
    if n <= q { SpanFewer(n, q, size); } else { SpanFewer(q + 1, n, size); }
    CountFits(n, size);
  }

  lemma QuotientSpan(x: nat, size: nat, q: nat)
    requires size > 0 && q == x / size
    ensures Span(q, size) <= x < Span(q + 1, size)
  {
  }

  lemma CountBelow(count: nat, n: nat, size: nat, current: nat)
    requires Span(count, size) <= current < Span(n, size)
    ensures count <= n
  {
    if count > n { SpanFewer(n, count, size); }
  }

  lemma HasByte(m: seq<byte>, l: Layout, home: nat, header: nat, size: nat, count: nat, p: nat)
    requires HoldsVector(m, l, home, header, size, count, p) && p != 0
    ensures Room(l, p, 1)
  {
  }

  lemma HeaderFits(m: seq<byte>, head: nat, heads: seq<nat>, m0: seq<byte>, l0: Layout, g: Layout, home: nat,
        header: nat, but: int, q: nat)
    requires l0.Inv() && g.Inv() && Agrees(m, head, heads, g, NONE) && Passed(m0, m, l0, g, but) && but != home
    requires Live(l0, home) && home + HEADER <= header && header + 8 <= l0.End(home) && Room(g, q, 1)
    ensures header + 8 <= |m| && q < WORD_LIMIT
  {
    hide Layout.Tiled, Layout.Listed;
    PassedBlock(m0, m, l0, g, but, home);
    RoomInside(g, q, 1);
  }

  lemma HeaderWritten(m0: seq<byte>, m: seq<byte>, r: seq<byte>, head: nat, heads: seq<nat>, l: Layout, g: Layout,
                      home: nat, header: nat, size: nat, count: nat, but: int, q: nat)
    requires l.Inv() && g.Inv() && Passed(m0, m, l, g, but) && Agrees(m, head, heads, g, NONE)
    requires Live(l, home) && home + HEADER <= header && header + 8 <= l.End(home) && but != home
    requires Room(g, q, 1) && Room(g, q, Span(count, size)) && (but == q - HEADER || !LiveAt(l, q)) && q != 0
    requires OnlyIn(m, r, header, header + 8) && header + 8 <= |r| && Get32(r, header) == count
    requires Get32(r, header + 4) == q
    ensures Agrees(r, head, heads, g, NONE) && HoldsVector(r, g, home, header, size, count, q)
    ensures Aside(m0, r, l, g, home, header, 8, but)
  {
    hide Layout.Tiled, Layout.Listed, Agrees, Passed, Aside, Room, Span;
    PassedSizes(m0, m, l, g, but);
    PassedBlock(m0, m, l, g, but, home);
    RoomInside(g, q, 1);
    RoomLive(g, q, 1);
    WriteAgrees(m, r, head, heads, g, NONE, home, header, header + 8);
    HeaderAside(m0, m, r, l, g, home, header, 8, but);
    SizeIs(r, g, head, heads);
  }

  lemma HeaderKeepsItems(m: seq<byte>, r: seq<byte>, g: Layout, home: nat, header: nat, size: nat, q: nat, n: nat)
    requires g.Inv() && |m| == |r| == g.full && Live(g, home) && home + HEADER <= header && header + 8 <= g.End(home)
    requires Room(g, q, Span(n, size)) && q - HEADER != home && OnlyIn(m, r, header, header + 8)
    ensures Items(r, q, size, n) == Items(m, q, size, n)
  {
    hide Layout.Tiled, Layout.Listed, Span, Items;
    RoomInside(g, q, Span(n, size));
    TilesApart(g, home, q - HEADER);
    ItemsSame(m, r, q, q, size, n, Span(n, size));
  }

  lemma PassedRelease(s: State, p: nat, m: seq<byte>, r: seq<byte>)
    requires s.Inv() && LiveAt(s.l, p) && |m| == |r| == s.l.full && Kept(m, r, s.l, p - HEADER)
    ensures Passed(m, r, s.l, Release(s, p).l, p - HEADER)
  {
    hide Release;
    ReleaseIsOk(s, p);
  }

  lemma ClearFits(m0: seq<byte>, m: seq<byte>, head: nat, heads: seq<nat>, l: Layout, g: Layout, home: nat, header: nat,
        but: int)
    requires l.Inv() && g.Inv() && Passed(m0, m, l, g, but) && but != home && Live(l, home) && home + HEADER <= header
    requires header + 8 <= l.End(home)
    ensures header + 8 <= |m|
  {
    PassedBlock(m0, m, l, g, but, home);
  }

  lemma ClearWritten(m0: seq<byte>, m: seq<byte>, r: seq<byte>, head: nat, heads: seq<nat>, l: Layout, g: Layout,
                     home: nat, header: nat, size: nat, but: int)
    requires l.Inv() && g.Inv() && Passed(m0, m, l, g, but) && Agrees(m, head, heads, g, NONE)
    requires Live(l, home) && home + HEADER <= header && header + 8 <= l.End(home) && but != home
    requires OnlyIn(m, r, header, header + 8) && header + 8 <= |r| && Get32(r, header) == 0 && Get32(r, header + 4) == 0
    ensures Agrees(r, head, heads, g, NONE) && HoldsVector(r, g, home, header, size, 0, 0) && Items(r, 0, size, 0) == []
    ensures Aside(m0, r, l, g, home, header, 8, but)
  {
    hide Layout.Tiled, Layout.Listed, Agrees, Passed;
    PassedSizes(m0, m, l, g, but);
    PassedBlock(m0, m, l, g, but, home);
    WriteAgrees(m, r, head, heads, g, NONE, home, header, header + 8);
    HeaderAside(m0, m, r, l, g, home, header, 8, but);
    SizeIs(r, g, head, heads);
  }
}
