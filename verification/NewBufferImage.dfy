/**
Making a new fixed-size buffer by copying an image of one and patching its size, in place of constructing it.
*/
module NewBufferImages {
  import opened Bytes
  import opened Layouts
  import opened HeapSpec
  import opened HeapMemory
  import opened HeapRuns
  import opened ResetSpec
  import opened PayloadBuffers
  import opened AllocatedBlocks
  import opened MessageRuntimes

  // ---- Constructing a buffer at two sizes ----

  /** Allocations alone, none of them too big to round up. */
  ghost predicate Gets(ops: seq<Op>) {
    forall i {:trigger ops[i]} :: 0 <= i < |ops| ==> ops[i].Get? && ops[i].n <= MAX_REQUEST
  }

  /** A buffer of one free block, which ends it, and nothing on the class lists. */
  ghost predicate OneFree(s: State, f: nat) {
    && s.Inv() && !s.failed && NoIdle(s.l) && s.l.free == [f] && f in s.l.tiles && s.l.End(f) == s.l.full
  }

  /** The same state in a buffer of another size. */
  ghost function AtSize(s: State, f: nat, full: nat): State
    requires f <= full
  {
    s.(l := s.l.(full := full, tiles := s.l.tiles[f := Tile(full - f, Free)]))
  }

  lemma AtSizeInv(s: State, f: nat, full: nat)
    requires OneFree(s, f) && f + HEADER <= full && full % 8 == 0
    ensures OneFree(AtSize(s, f, full), f)
  {
    var t := AtSize(s, f, full).l;
    NothingPast(s.l, f);
    assert s.l.TileOk(f);
    forall o | o in t.tiles ensures t.TileOk(o) { assert s.l.TileOk(o) && s.l.Apart(o, f); }
    forall a, b ensures t.Apart(a, b) { assert s.l.Apart(a, b); }
    forall i: nat ensures t.FreeAt(i) { }
    forall c: nat, j: nat ensures t.IdleAt(c, j) { }
  }

  /** The size an allocation is carved with. */
  function CarvedSize(n: nat, small: bool, cfg: Config): nat {
    if small && cfg.bitmaps && ClassOf(n) < CLASSES then ClassSize(ClassOf(n)) else Align8(n)
  }

  function CarvedKind(n: nat, small: bool, cfg: Config): Kind {
    if small && cfg.bitmaps && ClassOf(n) < CLASSES then Small(n) else Regular
  }

  /** The state after a block of `need` bytes is taken from the start of the one free block. */
  ghost function Carved(s: State, f: nat, need: nat, kind: Kind): State
    requires f + need <= s.l.full
  {
    s.(l := s.l.(tiles := s.l.tiles[f := Tile(need, kind)][f + need := Tile(s.l.full - f - need, Free)],
      free := [f + need]),
       hwm := Max(s.hwm, f + need + HEADER))
  }

  /** An allocation that leaves a free block in a buffer of one free block carves it from that block's start. */
  lemma GetCarves(s: State, f: nat, n: nat, small: bool, cfg: Config)
    requires OneFree(s, f) && n > 0 && !cfg.movable && n <= MAX_REQUEST
    requires f + CarvedSize(n, small, cfg) + 2 * HEADER <= s.l.full
    ensures var size := CarvedSize(n, small, cfg);
      Allocation(s, n, small, cfg, true) == Block(f + HEADER, Carved(s, f, size + HEADER, CarvedKind(n, small, cfg)))
  {
    Align8Covers(n);
    hide Layout.Tiled, Layout.Listed, Align8;
    var size := CarvedSize(n, small, cfg);
    var kind := CarvedKind(n, small, cfg);
    assert FirstFit(s.l, size + HEADER, 0) == 0;
    assert Take(s.l, 0, size + HEADER, kind).tiles == Carved(s, f, size + HEADER, kind).l.tiles;
    assert Take(s.l, 0, size + HEADER, kind).free == [f + size + HEADER];
  }

  lemma CarvedOneFree(s: State, f: nat, need: nat, kind: Kind)
    requires OneFree(s, f) && HEADER <= need && need % 8 == 0 && f + need + HEADER <= s.l.full
    requires kind.Regular? || (kind.Small? && kind.size <= 128 && need == HEADER + ClassSize(ClassOf(kind.size)))
    ensures OneFree(Carved(s, f, need, kind), f + need)
  {
    hide Layout.Tiled, Layout.Listed;
    TakeInv(s.l, 0, need, kind);
    assert Take(s.l, 0, need, kind).tiles == Carved(s, f, need, kind).l.tiles;
    assert Take(s.l, 0, need, kind).free == [f + need];
  }

  lemma CarvedAtSize(s: State, f: nat, need: nat, kind: Kind, full: nat)
    requires OneFree(s, f) && HEADER <= need && f + need + HEADER <= s.l.full && f + need + HEADER <= full
    ensures Carved(AtSize(s, f, full), f, need, kind) == AtSize(Carved(s, f, need, kind), f + need, full)
  {
    assert Carved(AtSize(s, f, full), f, need, kind).l.tiles
      == AtSize(Carved(s, f, need, kind), f + need, full).l.tiles;
  }

  /** Allocations that leave no free block, or find none, leave none for those after them. */
  lemma GetExhausts(s: State, f: nat, n: nat, small: bool, cfg: Config)
    requires OneFree(s, f) && n > 0 && !cfg.movable && n <= MAX_REQUEST
    requires s.l.full < f + CarvedSize(n, small, cfg) + 2 * HEADER
    ensures var r := Allocation(s, n, small, cfg, true); !r.Aborted? && r.s.l.free == [] && NoIdle(r.s.l)
  {
    Align8Multiple(n);
    Multiples(s, f);
    hide Layout.Tiled, Layout.Listed, Align8, Carve, NoIdle;
    var size := CarvedSize(n, small, cfg);
    NoIdleAt(s, n);
    CarveExhausts(s, f, size, CarvedKind(n, small, cfg), cfg, true);
    CarveExhausts(s, f, size, CarvedKind(n, small, cfg), cfg, n <= s.l.full);
  }

  lemma NoIdleAt(s: State, n: nat)
    requires NoIdle(s.l)
    ensures ClassOf(n) < CLASSES ==> s.l.idle[ClassOf(n)] == []
  {
  }

  lemma CarveExhausts(s: State, f: nat, size: nat, kind: Kind, cfg: Config, inPlace: bool)
    requires OneFree(s, f) && !cfg.movable && size % 8 == 0 && s.l.full < f + size + 2 * HEADER && f % 8 == 0
    requires s.l.full % 8 == 0
    ensures var r := Carve(s, size, kind, cfg, inPlace); !r.Aborted? && r.s.l.free == [] && NoIdle(r.s.l)
  {
    hide Layout.Tiled, Layout.Listed;
    var need := size + HEADER;
    assert FirstFit(s.l, need, 0) == if f + need <= s.l.full then 0 else 1;
  }

  lemma Multiples(s: State, f: nat)
    requires OneFree(s, f)
    ensures f % 8 == 0 && s.l.full % 8 == 0 && s.l.tiles[f].len % 8 == 0
  {
    assert s.l.TileOk(f);
  }

  lemma {:induction false} EmptyStays(s: State, ops: seq<Op>, cfg: Config)
    requires s.Inv() && s.l.free == [] && NoIdle(s.l) && !cfg.movable && Gets(ops) && Run(s, ops, cfg).Some?
    ensures Run(s, ops, cfg).value.l.free == []
    decreases |ops|
  {
    hide Layout.Tiled;
    if ops != [] {
      EmptyStep(s, ops[0], cfg);
      EmptyStays(Step(s, ops[0], cfg).value, ops[1..], cfg);
    }
  }

  lemma EmptyStep(s: State, op: Op, cfg: Config)
    requires s.Inv() && s.l.free == [] && NoIdle(s.l) && !cfg.movable && op.Get? && Step(s, op, cfg).Some?
    ensures Step(s, op, cfg).value.l.free == [] && NoIdle(Step(s, op, cfg).value.l)
  {
    hide Layout.Tiled, Layout.Listed, Align8;
  }

  /** The offsets of the blocks a run of allocations gives, 0 where it gives none. */
  ghost function Places(s: State, ops: seq<Op>, cfg: Config): seq<nat>
    requires s.Inv() && Gets(ops) && Run(s, ops, cfg).Some?
    decreases |ops|
  {
    hide State.Inv, Step;
    if ops == [] then []
    else
      StepIs(s, ops[0], cfg);
      [PlaceOf(Allocation(s, ops[0].n, ops[0].small, cfg, true))] + Places(Step(s, ops[0], cfg).value, ops[1..], cfg)
  }

  function PlaceOf(r: Outcome): nat {
    if r.Block? then r.p else 0
  }

  /**
  A buffer constructed at one size by allocations that leave a free block is the one constructed at any other
  size that leaves room for the free block's header, but for that size.
  */
  lemma {:induction false} SameAtEverySize(s: State, ops: seq<Op>, cfg: Config, f: nat, mark: nat, full: nat)
    requires OneFree(s, f) && Gets(ops) && !cfg.movable
    requires Run(s, ops, cfg).Some? && OneFree(Run(s, ops, cfg).value, mark)
    requires mark + HEADER <= full && full % 8 == 0
    ensures f <= mark && AtSize(s, f, full).Inv()
    ensures Run(AtSize(s, f, full), ops, cfg) == Some(AtSize(Run(s, ops, cfg).value, mark, full))
    ensures Places(AtSize(s, f, full), ops, cfg) == Places(s, ops, cfg)
    decreases |ops|
  {
    hide State.Inv, Carved, AtSize, Step, CarvedSize, CarvedKind, NoIdle, Allocation;
    if ops == [] {
      AtSizeInv(s, f, full);
    } else {
      var n, small := ops[0].n, ops[0].small;
      var g := f + CarvedSize(n, small, cfg) + HEADER;
      StepIs(s, ops[0], cfg);
      if n == 0 {
        SameAtEverySize(s, ops[1..], cfg, f, mark, full);
        StepIs(AtSize(s, f, full), ops[0], cfg);
      } else if g + HEADER <= s.l.full {
        CarveStep(s, f, n, small, cfg);
        SameAtEverySize(Step(s, ops[0], cfg).value, ops[1..], cfg, g, mark, full);
        CarveStepAtSize(s, f, n, small, cfg, full);
      } else {
        GetExhausts(s, f, n, small, cfg);
        EmptyStays(Step(s, ops[0], cfg).value, ops[1..], cfg);
      }
    }
  }

  lemma StepIs(s: State, op: Op, cfg: Config)
    requires s.Inv() && op.Get?
    ensures Legal(s, op)
    ensures op.n == 0 ==> Step(s, op, cfg) == Some(s) && PlaceOf(Allocation(s, op.n, op.small, cfg, true)) == 0
    ensures Step(s, op, cfg) == After(Allocation(s, op.n, op.small, cfg, true))
  {
    hide State.Inv;
  }

  lemma CarveStep(s: State, f: nat, n: nat, small: bool, cfg: Config)
    requires OneFree(s, f) && 0 < n <= MAX_REQUEST && !cfg.movable
    requires f + CarvedSize(n, small, cfg) + 2 * HEADER <= s.l.full
    ensures var g := f + CarvedSize(n, small, cfg) + HEADER; var c := Carved(s, f, g - f, CarvedKind(n, small, cfg));
      OneFree(c, g) && Step(s, Get(n, small), cfg) == Some(c)
        && PlaceOf(Allocation(s, n, small, cfg, true)) == f + HEADER
  {
    Align8Multiple(n);
    hide State.Inv, Carved, Align8, NoIdle;
    GetCarves(s, f, n, small, cfg);
    StepIs(s, Get(n, small), cfg);
    CarvedOneFree(s, f, CarvedSize(n, small, cfg) + HEADER, CarvedKind(n, small, cfg));
  }

  lemma CarveStepAtSize(s: State, f: nat, n: nat, small: bool, cfg: Config, full: nat)
    requires OneFree(s, f) && 0 < n <= MAX_REQUEST && !cfg.movable && full % 8 == 0
    requires f + CarvedSize(n, small, cfg) + 2 * HEADER <= s.l.full
    requires f + CarvedSize(n, small, cfg) + 2 * HEADER <= full
    ensures AtSize(s, f, full).Inv()
    ensures var g := f + CarvedSize(n, small, cfg) + HEADER;
      Step(AtSize(s, f, full), Get(n, small), cfg)
        == Some(AtSize(Carved(s, f, g - f, CarvedKind(n, small, cfg)), g, full))
    ensures PlaceOf(Allocation(AtSize(s, f, full), n, small, cfg, true)) == f + HEADER
  {
    hide State.Inv, Carved, AtSize, Step, CarvedSize, CarvedKind, NoIdle;
    AtSizeInv(s, f, full);
    AtSizeFull(s, f, full);
    CarveStep(AtSize(s, f, full), f, n, small, cfg);
    CarvedAtSize(s, f, CarvedSize(n, small, cfg) + HEADER, CarvedKind(n, small, cfg), full);
  }

  lemma AtSizeFull(s: State, f: nat, full: nat)
    requires f <= full
    ensures AtSize(s, f, full).l.full == full
  {
  }

  // ---- Constructing a buffer ----

  /**
  What a new buffer holds: a main message of `binarySize` bytes, and the field tables of its `types` message
  types, each found by a key at an offset in the tables.  A message of one type needs no control block.
  */
  datatype Parts = Parts(binarySize: nat, types: nat, tables: seq<byte>, keys: seq<seq<byte>>, offsets: seq<nat>) {
    ghost predicate Ok() {
      && 4 <= binarySize < FLAG && 0 < types < FLAG / 32 && 0 < |tables| < FLAG
      && |keys| == |offsets| <= types
      && (forall i {:trigger keys[i]} :: 0 <= i < |keys| ==> |keys[i]| == 8)
      && (forall i {:trigger offsets[i]} :: 0 <= i < |offsets| ==> offsets[i] < |tables|)
    }

    function ControlSize(): nat {
      24 + 16 * types
    }

    /** The allocations that make it. */
    function Ops(): seq<Op> {
      [Get(binarySize, true)] + (if types > 1 then [Get(ControlSize(), true)] else []) + [Get(|tables|, true)]
    }
  }

  function Zeroes(n: nat): seq<byte> {
    seq(n, _ => 0)
  }

  function Word(w: word): (r: seq<byte>)
    ensures |r| == 4 && Get32(r, 0) == w
  {
    Put32([0, 0, 0, 0], 0, w)
  }

  /** The entries of the first n types, for tables at `block`. */
  function EntryBytes(parts: Parts, block: nat, n: nat): (r: seq<byte>)
    requires n <= |parts.keys| == |parts.offsets|
    requires (forall i {:trigger parts.keys[i]} :: 0 <= i < |parts.keys| ==> |parts.keys[i]| == 8)
    requires forall i {:trigger parts.offsets[i]} :: 0 <= i < n ==> block + parts.offsets[i] < WORD_LIMIT
    ensures |r| == 16 * n
  {
    if n == 0 then
      []
    else
      EntryBytes(parts, block, n - 1) + parts.keys[n - 1] + Word(block + parts.offsets[n - 1]) + Zeroes(4)
  }

  /** The control block. */
  function ControlBytes(parts: Parts, block: nat): (r: seq<byte>)
    requires parts.Ok() && block + |parts.tables| <= WORD_LIMIT
    ensures |r| == parts.ControlSize()
  {
    Word(0x52544850) + Word(2) + Word(0) + Word(|parts.keys|) + Word(parts.types) + Zeroes(4)
    + EntryBytes(parts, block, |parts.keys|) + Zeroes(16 * (parts.types - |parts.keys|))
  }

  /** The block at p holds the bytes. */
  ghost predicate Contains(m: seq<byte>, l: Layout, p: nat, s: seq<byte>) {
    Room(l, p, |s|) && p + |s| <= |m| && m[p..p + |s|] == s
  }

  /** The message holds only the offset of its table, and the control block and the tables are as they are made. */
  ghost predicate Built(m: seq<byte>, l: Layout, parts: Parts, message: nat, metadata: nat, block: nat)
    requires parts.Ok()
  {
    && 0 < block && block + |parts.tables| <= WORD_LIMIT
    && Contains(m, l, message, Word(block) + Zeroes(parts.binarySize - 4))
    && (parts.types > 1 ==> Contains(m, l, metadata, ControlBytes(parts, block)))
    && Contains(m, l, block, parts.tables)
  }

  /** Contents of a block survive what passes it. */
  lemma ContainsPassed(m: seq<byte>, r: seq<byte>, l: Layout, g: Layout, p: nat, s: seq<byte>)
    requires l.Inv() && Passed(m, r, l, g, -1) && Contains(m, l, p, s)
    ensures Contains(r, g, p, s)
  {
    hide Layout.Tiled, Layout.Listed, Passed;
    PassedSizes(m, r, l, g, -1);
    PassedRoom(m, r, l, g, -1, p, |s|);
    assert r[p..p + |s|] == m[p..p + |s|];
  }

  /** Writing in another block. */
  lemma ContainsApart(m: seq<byte>, r: seq<byte>, l: Layout, p: nat, s: seq<byte>, q: nat, n: nat)
    requires l.Inv() && Contains(m, l, p, s) && Room(l, q, n) && q != p && OnlyIn(m, r, q, q + n)
    ensures Contains(r, l, p, s)
  {
    hide Layout.Tiled, Layout.Listed;
    RoomInside(l, p, |s|);
    RoomInside(l, q, n);
    TilesApart(l, p - HEADER, q - HEADER);
    assert r[p..p + |s|] == m[p..p + |s|];
  }

  /** Writes s at the start of the block at p. */
  method StoreIn(pb: PayloadBuffer, p: nat, s: seq<byte>)
    requires pb.Valid() && Room(pb.layout, p, |s|)
    modifies pb.mem
    ensures pb.Valid() && pb.St() == old(pb.St()) && pb.mem == old(pb.mem)
    ensures Contains(pb.mem[..], pb.layout, p, s) && p + |s| <= pb.mem.Length
    ensures OnlyIn(old(pb.mem[..]), pb.mem[..], p, p + |s|)
  {
    hide Layout.Tiled, Layout.Listed, Agrees;
    ghost var m := pb.mem[..];
    RoomInside(pb.layout, p, |s|);
    SizeIs(m, pb.layout, pb.freeList, pb.bitmaps);
    forall i | 0 <= i < |s| {
      pb.mem[p + i] := s[i];
    }
    WriteAgrees(m, pb.mem[..], pb.freeList, pb.bitmaps, pb.layout, NONE, p - HEADER, p, p + |s|);
  }

  /** Allocates n bytes in a fixed buffer. */
  method Take1(pb: PayloadBuffer, n: word, clear: bool) returns (p: nat)
    requires pb.Valid() && !pb.config.movable && 0 < n <= MAX_REQUEST
    modifies pb, pb.mem
    ensures pb.Valid() && (pb.mem == old(pb.mem) || fresh(pb.mem)) && pb.message == old(pb.message)
    ensures pb.metadata == old(pb.metadata)
    ensures Step(old(pb.St()), Get(n, true), pb.config) == Some(pb.St())
    ensures p == PlaceOf(Allocation(old(pb.St()), n, true, pb.config, true))
    ensures Passed(old(pb.mem[..]), pb.mem[..], old(pb.layout), pb.layout, -1)
    ensures p != 0 ==> Room(pb.layout, p, n) && !LiveAt(old(pb.layout), p)
    ensures p != 0 && clear ==> Contains(pb.mem[..], pb.layout, p, Zeroes(n))
  {
    hide Layout.Tiled, Layout.Listed, Agrees, Allocation, Kept, Passed, Gives, Room, Cleared;
    ghost var s, m := pb.St(), pb.mem[..];
    AllocationIsOk(s, n, true, pb.config, true);
    FixedNeverAborts(s, n, pb.config);
    var alive;
    p, alive := pb.Allocate(n, clear, true);
    GivesStep(s, n, pb.config, p, alive, pb.St());
    AllocationPasses(s, n, true, pb.config, p, pb.St(), m, pb.mem[..]);
    if p != 0 && clear { ClearedContains(pb.mem[..], pb.layout, p, n); }
  }

  lemma FixedNeverAborts(s: State, n: nat, cfg: Config)
    requires s.Inv() && !cfg.movable
    ensures !Allocation(s, n, true, cfg, true).Aborted?
  {
    hide Layout.Tiled, Layout.Listed, Align8;
  }

  lemma GivesStep(s: State, n: nat, cfg: Config, p: nat, alive: bool, t: State)
    requires s.Inv() && Gives(Allocation(s, n, true, cfg, true), p, alive, t)
    requires !Allocation(s, n, true, cfg, true).Aborted?
    ensures alive && Step(s, Get(n, true), cfg) == Some(t) && p == PlaceOf(Allocation(s, n, true, cfg, true))
  {
    hide Allocation, State.Inv;
  }

  lemma ClearedContains(m: seq<byte>, l: Layout, p: nat, n: nat)
    requires l.Inv() && Room(l, p, n) && Cleared(m, l, p)
    ensures Contains(m, l, p, Zeroes(n))
  {
    RoomInside(l, p, n);
  }

  /** A buffer reached by the allocations of its parts, which are where those were given, and made as they are to be. */
  ghost predicate Made(s: State, size: nat, cfg: Config, parts: Parts, message: nat, metadata: nat, m: seq<byte>)
    requires parts.Ok() && HEADER_SIZE + HEADER <= size && size % 8 == 0
  {
    MadeOk(size, parts);
    && Run(Fresh(HEADER_SIZE, size), parts.Ops(), cfg) == Some(s)
    && var places := Places(Fresh(HEADER_SIZE, size), parts.Ops(), cfg);
      && |places| == |parts.Ops()| && message == places[0] && metadata == (if parts.types > 1 then places[1] else 0)
      && Built(m, s.l, parts, message, metadata, places[|places| - 1])
  }

  lemma MadeOk(size: nat, parts: Parts)
    requires parts.Ok() && HEADER_SIZE + HEADER <= size && size % 8 == 0
    ensures Fresh(HEADER_SIZE, size).Inv() && Gets(parts.Ops())
  {
    FreshInv(HEADER_SIZE, size);
  }

  lemma RunOps(s: State, parts: Parts, cfg: Config, s1: State, s2: State, s3: State, p0: nat, p1: nat, p2: nat)
    requires s.Inv() && s1.Inv() && s2.Inv() && parts.Ok()
    requires Step(s, Get(parts.binarySize, true), cfg) == Some(s1)
    requires p0 == PlaceOf(Allocation(s, parts.binarySize, true, cfg, true))
    requires parts.types > 1 ==> Step(s1, Get(parts.ControlSize(), true), cfg) == Some(s2)
    requires parts.types > 1 ==> p1 == PlaceOf(Allocation(s1, parts.ControlSize(), true, cfg, true))
    requires parts.types == 1 ==> s2 == s1
    requires Step(s2, Get(|parts.tables|, true), cfg) == Some(s3)
    requires p2 == PlaceOf(Allocation(s2, |parts.tables|, true, cfg, true))
    ensures Gets(parts.Ops()) && Run(s, parts.Ops(), cfg) == Some(s3)
    ensures Places(s, parts.Ops(), cfg) == [p0] + (if parts.types > 1 then [p1] else []) + [p2]
  {
    hide State.Inv, Step, Allocation;
    var last := [Get(|parts.tables|, true)];
    RunFirst(s2, last, cfg, s3);
    assert Places(s3, [], cfg) == [];
    if parts.types > 1 {
      RunFirst(s1, [Get(parts.ControlSize(), true)] + last, cfg, s2);
      assert parts.Ops() == [Get(parts.binarySize, true)] + ([Get(parts.ControlSize(), true)] + last);
      RunFirst(s, parts.Ops(), cfg, s1);
    } else {
      assert parts.Ops() == [Get(parts.binarySize, true)] + last;
      RunFirst(s, parts.Ops(), cfg, s1);
    }
  }

  lemma RunFirst(s: State, ops: seq<Op>, cfg: Config, t: State)
    requires s.Inv() && t.Inv() && Gets(ops) && ops != [] && Step(s, ops[0], cfg) == Some(t)
    ensures Run(s, ops, cfg) == Run(t, ops[1..], cfg)
    ensures Run(t, ops[1..], cfg).Some? ==>
      Places(s, ops, cfg) == [PlaceOf(Allocation(s, ops[0].n, ops[0].small, cfg, true))] + Places(t, ops[1..], cfg)
  {
    hide State.Inv, Step, Allocation;
    StepIs(s, ops[0], cfg);
  }

  /** The control block, if the message reaches other types. */
  method AddControl(b: PayloadBuffer, parts: Parts, message: nat) returns (c: nat)
    requires b.Valid() && !b.config.movable && parts.Ok() && message != 0
    requires Contains(b.mem[..], b.layout, message, Zeroes(parts.binarySize))
    modifies b, b.mem
    ensures b.Valid() && (b.mem == old(b.mem) || fresh(b.mem)) && b.message == old(b.message)
    ensures parts.types == 1 ==> b.St() == old(b.St()) && b.metadata == old(b.metadata)
    ensures parts.types > 1 ==> Step(old(b.St()), Get(parts.ControlSize(), true), b.config) == Some(b.St())
    ensures parts.types > 1 ==> c == PlaceOf(Allocation(old(b.St()), parts.ControlSize(), true, b.config, true))
    ensures parts.types > 1 && c != 0 ==> b.metadata == c && c != message
    ensures parts.types > 1 && c != 0 ==> Contains(b.mem[..], b.layout, c, Zeroes(parts.ControlSize()))
    ensures Contains(b.mem[..], b.layout, message, Zeroes(parts.binarySize))
  {
    hide Layout.Tiled, Layout.Listed, Agrees, Passed, Step, Allocation, Room;
    c := 0;
    if parts.types > 1 {
      ghost var m, l := b.mem[..], b.layout;
      ContainsIsLive(m, l, message, Zeroes(parts.binarySize));
      c := Take1(b, parts.ControlSize(), true);
      ContainsPassed(m, b.mem[..], l, b.layout, message, Zeroes(parts.binarySize));
      if c != 0 {
        b.metadata := c;
      }
    }
  }

  lemma ContainsIsLive(m: seq<byte>, l: Layout, p: nat, s: seq<byte>)
    requires Contains(m, l, p, s)
    ensures LiveAt(l, p)
  {
  }

  /** The tables, and with their offset the control block and the message's first word. */
  method AddTables(b: PayloadBuffer, parts: Parts, message: nat, c: nat) returns (block: nat)
    requires b.Valid() && !b.config.movable && parts.Ok() && message != 0
    requires Contains(b.mem[..], b.layout, message, Zeroes(parts.binarySize))
    requires parts.types > 1 ==> c != message && Contains(b.mem[..], b.layout, c, Zeroes(parts.ControlSize()))
    modifies b, b.mem
    ensures b.Valid() && (b.mem == old(b.mem) || fresh(b.mem)) && b.message == old(b.message)
    ensures b.metadata == old(b.metadata)
    ensures Step(old(b.St()), Get(|parts.tables|, true), b.config) == Some(b.St())
    ensures block == PlaceOf(Allocation(old(b.St()), |parts.tables|, true, b.config, true))
    ensures block != 0 ==> Built(b.mem[..], b.layout, parts, message, c, block)
  {
    hide Layout.Tiled, Layout.Listed, Agrees, Passed, Step, Allocation, Room, ControlBytes, Built, Contains;
    ghost var m, l := b.mem[..], b.layout;
    ContainsIsLive(m, l, message, Zeroes(parts.binarySize));
    block := Take1(b, |parts.tables|, false);
    if block == 0 {
      return;
    }
    ContainsPassed(m, b.mem[..], l, b.layout, message, Zeroes(parts.binarySize));
    if parts.types > 1 {
      ContainsIsLive(m, l, c, Zeroes(parts.ControlSize()));
      ContainsPassed(m, b.mem[..], l, b.layout, c, Zeroes(parts.ControlSize()));
    }
    Link(b, parts, message, c, block);
  }

  /** Writes the tables, the control block and the message's first word. */
  method Link(b: PayloadBuffer, parts: Parts, message: nat, c: nat, block: nat)
    requires b.Valid() && parts.Ok() && Contains(b.mem[..], b.layout, message, Zeroes(parts.binarySize))
    requires message != block
    requires parts.types > 1 ==> c != message && c != block
    requires parts.types > 1 ==> Contains(b.mem[..], b.layout, c, Zeroes(parts.ControlSize()))
    requires block != 0 && Room(b.layout, block, |parts.tables|)
    modifies b.mem
    ensures b.Valid() && b.St() == old(b.St()) && b.mem == old(b.mem)
    ensures Built(b.mem[..], b.layout, parts, message, c, block)
  {
    hide Layout.Tiled, Layout.Listed, Agrees, Room, ControlBytes, Contains;
    BlockBelowLimit(b.mem[..], b.layout, b.freeList, b.bitmaps, block, |parts.tables|);
    ghost var m0 := b.mem[..];
    StoreIn(b, block, parts.tables);
    ContainsApart(m0, b.mem[..], b.layout, message, Zeroes(parts.binarySize), block, |parts.tables|);
    if parts.types > 1 {
      ContainsApart(m0, b.mem[..], b.layout, c, Zeroes(parts.ControlSize()), block, |parts.tables|);
      ghost var m1 := b.mem[..];
      var control := ControlBytes(parts, block);
      ContainsRoom(m1, b.layout, c, Zeroes(parts.ControlSize()), |control|);
      StoreIn(b, c, control);
      ContainsApart(m1, b.mem[..], b.layout, message, Zeroes(parts.binarySize), c, |control|);
      ContainsApart(m1, b.mem[..], b.layout, block, parts.tables, c, |control|);
    }
    ghost var m2 := b.mem[..];
    ContainsRoom(m2, b.layout, message, Zeroes(parts.binarySize), 4);
    StoreIn(b, message, Word(block));
    ContainsApart(m2, b.mem[..], b.layout, block, parts.tables, message, 4);
    if parts.types > 1 { ContainsApart(m2, b.mem[..], b.layout, c, ControlBytes(parts, block), message, 4); }
    WordThenZeroes(m2, b.mem[..], b.layout, message, parts.binarySize, Word(block));
  }

  lemma BlockBelowLimit(m: seq<byte>, l: Layout, head: nat, heads: seq<nat>, p: nat, n: nat)
    requires l.Inv() && Agrees(m, head, heads, l, NONE) && Room(l, p, n)
    ensures p + n <= |m| < FLAG
  {
    RoomInside(l, p, n);
  }

  lemma ContainsRoom(m: seq<byte>, l: Layout, p: nat, s: seq<byte>, n: nat)
    requires Contains(m, l, p, s) && n <= |s|
    ensures Room(l, p, n)
  {
  }

  lemma WordThenZeroes(m: seq<byte>, r: seq<byte>, l: Layout, p: nat, n: nat, w: seq<byte>)
    requires 4 <= n && |w| == 4 && Contains(m, l, p, Zeroes(n)) && Contains(r, l, p, w) && OnlyIn(m, r, p, p + 4)
    ensures Contains(r, l, p, w + Zeroes(n - 4))
  {
    var s := w + Zeroes(n - 4);
    forall i | 0 <= i < n ensures r[p..p + n][i] == s[i] {
      if i < 4 {
        assert r[p..p + 4][i] == w[i];
      } else {
        assert m[p..p + n] == Zeroes(n);
        assert m[p..p + n][i] == r[p + i];
      }
    }
  }

  /** Every allocation of the parts is met by a new buffer of this size. */
  ghost predicate Fits(size: nat, cfg: Config, parts: Parts)
    requires parts.Ok() && size % 8 == 0 && !cfg.movable
  {
    HEADER_SIZE + HEADER <= size
    && (MadeOk(size, parts);
        FixedRuns(Fresh(HEADER_SIZE, size), parts.Ops(), cfg);
        0 !in Places(Fresh(HEADER_SIZE, size), parts.Ops(), cfg))
  }

  /** A new buffer of `size` bytes with its main message and its metadata, or null exactly if they do not fit. */
  method MakeFixedBuffer(size: nat, bitmaps: bool, parts: Parts) returns (pb: PayloadBuffer?)
    requires parts.Ok() && size % 8 == 0 && size < FLAG
    ensures pb != null <==> Fits(size, Config(bitmaps, false, 0), parts)
    ensures pb != null ==> fresh(pb) && fresh(pb.mem) && pb.Valid() && pb.config == Config(bitmaps, false, 0)
    ensures pb != null ==> HEADER_SIZE + HEADER <= size == pb.fullSize
    ensures pb != null ==> Made(pb.St(), size, pb.config, parts, pb.message, pb.metadata, pb.mem[..])
  {
    hide Layout.Tiled, Layout.Listed, Agrees, Run, Step, Places, Allocation, Contains, State.Inv, Built;
    pb := null;
    if size < HEADER_SIZE + HEADER {
      return;
    }
    var b := new PayloadBuffer(size, Config(bitmaps, false, 0));
    ghost var s := b.St();
    MadeOk(size, parts);
    FixedRuns(s, parts.Ops(), b.config);
    var message := Take1(b, parts.binarySize, true);
    ghost var s1 := b.St();
    b.message := message;
    if message == 0 {
      FirstDoesNotFit(s, parts, b.config, s1);
      return;
    }
    var c := AddControl(b, parts, message);
    ghost var s2 := b.St();
    if parts.types > 1 && c == 0 {
      SecondDoesNotFit(s, parts, b.config, s1, s2);
      return;
    }
    var block := AddTables(b, parts, message, c);
    RunOps(s, parts, b.config, s1, s2, b.St(), message, c, block);
    if block == 0 {
      return;
    }
    BuiltAnyway(b.mem[..], b.layout, parts, message, c, b.metadata, block);
    SizeKept(s, parts, b.config, b.St());
    pb := b;
  }

  lemma FirstDoesNotFit(s: State, parts: Parts, cfg: Config, s1: State)
    requires s.Inv() && s1.Inv() && parts.Ok() && !cfg.movable && Gets(parts.Ops()) && Run(s, parts.Ops(), cfg).Some?
    requires Step(s, Get(parts.binarySize, true), cfg) == Some(s1)
    requires PlaceOf(Allocation(s, parts.binarySize, true, cfg, true)) == 0
    ensures 0 in Places(s, parts.Ops(), cfg)
  {
    hide State.Inv, Step, Allocation;
    FixedRuns(s1, parts.Ops()[1..], cfg);
    RunFirst(s, parts.Ops(), cfg, s1);
    assert Places(s, parts.Ops(), cfg)[0] == 0;
  }

  lemma SecondDoesNotFit(s: State, parts: Parts, cfg: Config, s1: State, s2: State)
    requires s.Inv() && s1.Inv() && s2.Inv() && parts.Ok() && !cfg.movable && Gets(parts.Ops())
    requires Run(s, parts.Ops(), cfg).Some?
    requires parts.types > 1 && Step(s, Get(parts.binarySize, true), cfg) == Some(s1)
    requires Step(s1, Get(parts.ControlSize(), true), cfg) == Some(s2)
    requires PlaceOf(Allocation(s1, parts.ControlSize(), true, cfg, true)) == 0
    ensures 0 in Places(s, parts.Ops(), cfg)
  {
    hide State.Inv, Step, Allocation;
    var ops := parts.Ops()[1..];
    FixedRuns(s2, ops[1..], cfg);
    RunFirst(s1, ops, cfg, s2);
    RunFirst(s, parts.Ops(), cfg, s1);
    assert Places(s, parts.Ops(), cfg)[1] == 0;
  }

  lemma BuiltAnyway(m: seq<byte>, l: Layout, parts: Parts, message: nat, c: nat, metadata: nat, block: nat)
    requires parts.Ok() && Built(m, l, parts, message, c, block) && (parts.types > 1 ==> c == metadata)
    ensures Built(m, l, parts, message, metadata, block)
  {
  }

  /** A fixed buffer keeps its size, and no allocation in it ends the process. */
  lemma SizeKept(s: State, parts: Parts, cfg: Config, t: State)
    requires s.Inv() && parts.Ok() && !cfg.movable && Gets(parts.Ops()) && Run(s, parts.Ops(), cfg) == Some(t)
    ensures t.l.full == s.l.full
  {
    FixedRuns(s, parts.Ops(), cfg);
  }

  lemma {:induction false} FixedRuns(s: State, ops: seq<Op>, cfg: Config)
    requires s.Inv() && !cfg.movable && Gets(ops)
    ensures Run(s, ops, cfg).Some? && Run(s, ops, cfg).value.l.full == s.l.full
    decreases |ops|
  {
    hide State.Inv;
    if ops != [] {
      GetKeepsSize(s, ops[0].n, ops[0].small, cfg);
      StepIs(s, ops[0], cfg);
      FixedRuns(Step(s, ops[0], cfg).value, ops[1..], cfg);
    }
  }

  lemma GetKeepsSize(s: State, n: nat, small: bool, cfg: Config)
    requires s.Inv() && !cfg.movable
    ensures var r := Allocation(s, n, small, cfg, true); !r.Aborted? && r.s.l.full == s.l.full
  {
    hide Layout.Tiled, Layout.Listed, Align8;
  }

  // ---- Copying an image ----

  /** The most bytes an image may have. */
  const MAX_IMAGE: nat := 0x10000

  lemma MarkedIsOneFree(m: seq<byte>, head: nat, heads: seq<nat>, s: State, mark: nat)
    requires Marked(s, mark) && Agrees(m, head, heads, s.l, NONE)
    ensures OneFree(s, mark) && head == mark && mark + HEADER <= |m| && Get32(m, mark + 4) == 0 && |heads| == CLASSES
    ensures s.hwm == mark + HEADER && !s.failed
  {
    hide Layout.Tiled;
    assert LinkOk(m, head, s.l, -1) && LinkOk(m, head, s.l, 0);
  }

  lemma ImageInside(m: seq<byte>, head: nat, heads: seq<nat>, s: State)
    requires s.Inv() && Agrees(m, head, heads, s.l, NONE) && MarkOf(s) != 0
    ensures HEADER < s.hwm <= |m| == s.l.full && Marked(s, s.hwm - HEADER)
  {
    MarkedIsOneFree(m, head, heads, s, MarkOf(s));
  }

  /** The bytes of the image, and of a free block's header with its length changed. */
  lemma SameImage(mem: seq<byte>, bytes: seq<byte>, m: seq<byte>, r: seq<byte>, mark: nat, size: nat)
    requires |bytes| == mark + HEADER <= |mem| && bytes == mem[..|bytes|] && mark + HEADER <= size == |m| < FLAG
    requires m[..|bytes|] == bytes && r == Put32(m, mark, size - mark)
    ensures |r| == size && Same(mem, r, 0, mark) && Get32(r, mark) == size - mark
    ensures Get32(r, mark + 4) == Get32(mem, mark + 4)
  {
    hide Put32, Get32;
    assert Same(mem, m, 0, mark + HEADER) by {
      forall i {:trigger m[i]} | 0 <= i < mark + HEADER ensures m[i] == mem[i] {
        assert m[..|bytes|][i] == bytes[i] == mem[..|bytes|][i];
      }
    }
    SameWord(mem, m, 0, mark + HEADER, mark + 4);
    SameWord(m, r, mark + 4, size, mark + 4);
  }

  lemma AtSizeIs(s: State, mark: nat, full: nat)
    requires mark <= full
    ensures AtSize(s, mark, full).l.full == full && AtSize(s, mark, full).l.start == s.l.start
    ensures AtSize(s, mark, full) == State(AtSize(s, mark, full).l, s.hwm, s.failed)
  {
  }

  lemma ImageAgrees(m: seq<byte>, r: seq<byte>, head: nat, heads: seq<nat>, s: State, mark: nat, full: nat)
    requires OneFree(s, mark) && Agrees(m, head, heads, s.l, NONE) && mark + HEADER <= full == |r| < FLAG
    requires Same(m, r, 0, mark) && Get32(r, mark) == full - mark && Get32(r, mark + 4) == 0
    ensures Agrees(r, head, heads, AtSize(s, mark, full).l, NONE)
  {
    hide Get32;
    var t := AtSize(s, mark, full).l;
    NothingPast(s.l, mark);
    forall o: nat ensures HeaderOk(r, t, o) {
      assert HeaderOk(m, s.l, o);
      if o in s.l.tiles && o != mark {
        assert s.l.TileOk(o) && s.l.Apart(o, mark);
        SameWord(m, r, 0, mark, o);
        SameWord(m, r, 0, mark, o + 4);
      }
    }
    forall i: int ensures LinkOk(r, head, t, i) { assert LinkOk(m, head, s.l, i); }
    forall c: nat, j: int ensures IdleLinkOk(r, heads, t, c, j) { assert IdleLinkOk(m, heads, s.l, c, j); }
  }

  /** Contents of a block are below the free block. */
  lemma ContainsAtSize(m: seq<byte>, r: seq<byte>, s: State, mark: nat, full: nat, p: nat, b: seq<byte>)
    requires OneFree(s, mark) && mark <= full == |r| && Same(m, r, 0, mark) && Contains(m, s.l, p, b)
    ensures Contains(r, AtSize(s, mark, full).l, p, b)
  {
    hide Layout.Tiled, Layout.Listed;
    NothingPast(s.l, mark);
    RoomInside(s.l, p, |b|);
    FreeApart(s.l, mark, p - HEADER);
    assert r[p..p + |b|] == m[p..p + |b|];
  }

  lemma FreeApart(l: Layout, mark: nat, o: nat)
    requires l.Inv() && l.free == [mark] && Live(l, o) && o <= mark
    ensures l.End(o) <= mark
  {
    assert l.FreeAt(0) && l.Apart(o, mark);
  }

  lemma BuiltAtSize(m: seq<byte>, r: seq<byte>, s: State, mark: nat, full: nat, parts: Parts, message: nat,
        metadata: nat, block: nat)
    requires OneFree(s, mark) && mark <= full == |r| && Same(m, r, 0, mark)
    requires parts.Ok() && Built(m, s.l, parts, message, metadata, block)
    ensures Built(r, AtSize(s, mark, full).l, parts, message, metadata, block)
  {
    hide OneFree, AtSize, ControlBytes, Contains;
    ContainsAtSize(m, r, s, mark, full, message, Word(block) + Zeroes(parts.binarySize - 4));
    ContainsAtSize(m, r, s, mark, full, block, parts.tables);
    if parts.types > 1 { ContainsAtSize(m, r, s, mark, full, metadata, ControlBytes(parts, block)); }
  }

  lemma FreshOneFree(size: nat, full: nat)
    requires HEADER_SIZE + HEADER <= size && HEADER_SIZE + HEADER <= full && size % 8 == 0 && full % 8 == 0
    ensures OneFree(Fresh(HEADER_SIZE, size), HEADER_SIZE)
    ensures AtSize(Fresh(HEADER_SIZE, size), HEADER_SIZE, full) == Fresh(HEADER_SIZE, full)
  {
    FreshInv(HEADER_SIZE, size);
    assert AtSize(Fresh(HEADER_SIZE, size), HEADER_SIZE, full).l.tiles == Fresh(HEADER_SIZE, full).l.tiles;
  }

  /** What is made in one buffer is what is made in a buffer of another size. */
  lemma ImageMade(m: seq<byte>, r: seq<byte>, s: State, parts: Parts, message: nat, metadata: nat, mark: nat, size: nat,
        full: nat, cfg: Config)
    requires parts.Ok() && HEADER_SIZE + HEADER <= size && size % 8 == 0 && !cfg.movable
    requires Made(s, size, cfg, parts, message, metadata, m)
    requires OneFree(s, mark) && mark + HEADER <= full == |r| && full % 8 == 0 && Same(m, r, 0, mark)
    ensures HEADER_SIZE + HEADER <= full && Made(AtSize(s, mark, full), full, cfg, parts, message, metadata, r)
  {
    hide State.Inv, Run, Places, Built, OneFree, AtSize;
    MadeOk(size, parts);
    FreshOneFree(size, size);
    SameAtEverySize(Fresh(HEADER_SIZE, size), parts.Ops(), cfg, HEADER_SIZE, mark, full);
    FreshOneFree(size, full);
    var places := Places(Fresh(HEADER_SIZE, size), parts.Ops(), cfg);
    BuiltAtSize(m, r, s, mark, full, parts, message, metadata, places[|places| - 1]);
  }

  lemma MadeFits(s: State, size: nat, cfg: Config, parts: Parts, message: nat, metadata: nat, m: seq<byte>)
    requires parts.Ok() && HEADER_SIZE + HEADER <= size && size % 8 == 0 && !cfg.movable
    requires Made(s, size, cfg, parts, message, metadata, m)
    ensures Fits(size, cfg, parts)
  {
    hide State.Inv, Run, Places, ControlBytes;
  }

  lemma EvenMultiple(n: nat)
    requires n % 8 == 0
    ensures 2 * n % 8 == 0
  {
  }

  /** The first size from `size` on, doubling, of scratch memory that the parts fit, or 0 if that is too much. */
  ghost function ScratchSize(size: nat, parts: Parts): (r: nat)
    requires parts.Ok() && size % 8 == 0 && HEADER_SIZE + HEADER <= size
    ensures r != 0 ==> HEADER_SIZE + HEADER <= r && r % 8 == 0
    decreases 4 * MAX_IMAGE - size
  {
    hide Fits, Parts.Ok;
    EvenMultiple(size);
    if size > 2 * MAX_IMAGE then 0
    else if Fits(size, Config(true, false, 0), parts) then size
    else ScratchSize(2 * size, parts)
  }

  /** Built in the first scratch memory they fit, the parts leave one free block, at a mark that is not too high. */
  ghost predicate HasImage(parts: Parts)
    requires parts.Ok()
  {
    var size := ScratchSize(4096, parts);
    size != 0
    && (MadeOk(size, parts);
        var r := Run(Fresh(HEADER_SIZE, size), parts.Ops(), Config(true, false, 0));
        r.Some? && MarkOf(r.value) != 0 && r.value.hwm <= MAX_IMAGE)
  }

  lemma MadeRun(s: State, size: nat, cfg: Config, parts: Parts, message: nat, metadata: nat, m: seq<byte>)
    requires parts.Ok() && HEADER_SIZE + HEADER <= size && size % 8 == 0
    requires Made(s, size, cfg, parts, message, metadata, m)
    ensures Fresh(HEADER_SIZE, size).Inv() && Run(Fresh(HEADER_SIZE, size), parts.Ops(), cfg) == Some(s)
  {
    hide State.Inv, Run, Places, Built;
    MadeOk(size, parts);
  }

  /** The first bytes of a new buffer with one free block, as far as that block's header. */
  class NewBufferImage {
    const parts: Parts
    var bytes: seq<byte>
    var message: nat
    var metadata: nat
    var hwm: nat
    var fullSize: nat
    var freeList: nat
    var bitmaps: seq<nat>
    ghost var made: State
    ghost var mem: seq<byte>

    ghost predicate Valid()
      reads this
    {
      hide Layout.Tiled, Layout.Listed, Agrees, Made, Marked, Parts.Ok;
      && parts.Ok()
      && (bytes != [] ==>
        && HEADER_SIZE + HEADER <= fullSize == made.l.full && fullSize % 8 == 0
        && Made(made, fullSize, Config(true, false, 0), parts, message, metadata, mem)
        && Agrees(mem, freeList, bitmaps, made.l, NONE)
        && HEADER < hwm == made.hwm == |bytes| <= |mem| && bytes == mem[..|bytes|]
        && Marked(made, hwm - HEADER) && made.l.start == HEADER_SIZE)
    }

    /** Constructs a buffer in scratch memory of doubling size, until its parts fit. */
    constructor (parts: Parts)
      requires parts.Ok()
      ensures Valid() && this.parts == parts
      ensures bytes != [] <==> HasImage(parts)
      ensures bytes != [] ==> fullSize == ScratchSize(4096, parts)
    {
      hide Layout.Tiled, Layout.Listed, Agrees, Made, State.Inv, Marked, MarkOf, Fits, Parts.Ok, Run;
      this.parts := parts;
      bytes, message, metadata, hwm := [], 0, 0, 0;
      fullSize, freeList, bitmaps := 0, 0, [];
      made, mem := Fresh(0, 0), [];
      new;
      var scratch := 4096;
      while scratch <= 2 * MAX_IMAGE
        invariant 4096 <= scratch && scratch % 8 == 0 && bytes == []
        invariant ScratchSize(scratch, parts) == ScratchSize(4096, parts)
        decreases 4 * MAX_IMAGE - scratch
      {
        var pb := MakeFixedBuffer(scratch, true, parts);
        if pb != null {
          MadeRun(pb.St(), scratch, pb.config, parts, pb.message, pb.metadata, pb.mem[..]);
          KeepImage(pb);
          return;
        }
        EvenMultiple(scratch);
        scratch := 2 * scratch;
      }
    }

    /** Keeps the first bytes of a new buffer, if there is a mark in it and they are not too many. */
    method KeepImage(pb: PayloadBuffer)
      requires Valid() && pb.Valid() && bytes == [] && HEADER_SIZE + HEADER <= pb.fullSize && pb.fullSize % 8 == 0
      requires pb.config == Config(true, false, 0)
      requires Made(pb.St(), pb.fullSize, pb.config, parts, pb.message, pb.metadata, pb.mem[..])
      modifies this
      ensures Valid() && (bytes != [] <==> MarkOf(pb.St()) != 0 && pb.hwm <= MAX_IMAGE)
      ensures (bytes != [] ==> fullSize == pb.fullSize)
    {
      hide Layout.Tiled, Layout.Listed, Agrees, Made, State.Inv, Marked, MarkOf, Parts.Ok;
      var runtime := new MessageRuntime(pb, 0, true);
      runtime.MarkNewBuffer();
      if runtime.ResetMark() == 0 || pb.hwm > MAX_IMAGE {
        return;
      }
      ImageInside(pb.mem[..], pb.freeList, pb.bitmaps, pb.St());
      bytes, message, metadata, hwm := pb.mem[..pb.hwm], pb.message, pb.metadata, pb.hwm;
      fullSize, freeList, bitmaps := pb.fullSize, pb.freeList, pb.bitmaps;
      made, mem := pb.St(), pb.mem[..];
    }

    /**
    A buffer of any size with room for the image: the one constructing it from scratch makes, blocks, contents,
    list and mark alike.
    */
    method CopyTo(size: nat) returns (pb: PayloadBuffer?)
      requires Valid() && size % 8 == 0 && size < FLAG
      ensures pb != null <==> bytes != [] && |bytes| <= size
      ensures pb != null ==> fresh(pb) && fresh(pb.mem) && pb.Valid() && pb.config == Config(true, false, 0)
      ensures pb != null ==> HEADER_SIZE + HEADER <= size == pb.fullSize
      ensures pb != null ==> Made(pb.St(), size, pb.config, parts, pb.message, pb.metadata, pb.mem[..])
      ensures pb != null ==> Fits(size, pb.config, parts)
    {
      hide Layout.Tiled, Layout.Listed, Agrees, Made, State.Inv, AtSize, Marked, OneFree, Fits, Put32, Get32, Same;
      if bytes == [] || size < |bytes| {
        return null;
      }
      ghost var mark := hwm - HEADER;
      MarkedIsOneFree(mem, freeList, bitmaps, made, mark);
      pb := new PayloadBuffer.FromImage(bytes, size, Config(true, false, 0), message, metadata, hwm, fullSize, freeList,
        bitmaps, made.l);
      pb.fullSize := size;
      ghost var m := pb.mem[..];
      pb.Store32(pb.freeList, size - pb.freeList);
      pb.layout := AtSize(made, mark, size).l;
      SameImage(mem, bytes, m, pb.mem[..], mark, size);
      AtSizeInv(made, mark, size);
      AtSizeIs(made, mark, size);
      ImageAgrees(mem, pb.mem[..], freeList, bitmaps, made, mark, size);
      ImageMade(mem, pb.mem[..], made, parts, message, metadata, mark, fullSize, size, pb.config);
      MadeFits(pb.St(), size, pb.config, parts, message, metadata, pb.mem[..]);
    }
  }
}
