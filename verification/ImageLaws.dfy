/** How much a new buffer takes, where its parts lie, and for which of them there is an image to copy. */
module ImageLaws {
  import opened Layouts
  import opened HeapSpec
  import opened HeapRuns
  import opened HeapLaws
  import opened ResetSpec
  import opened PayloadBuffers
  import opened MessageRuntimes
  import opened NewBufferImages

  lemma CarvedIsBlock(n: nat, small: bool, cfg: Config)
    requires n <= MAX_REQUEST
    ensures CarvedSize(n, small, cfg) == BlockSize(n, small && cfg.bitmaps)
  {
  }

  /** The bytes the blocks of some allocations take, with their headers. */
  function Needed(ops: seq<Op>, bitmaps: bool): (r: nat)
    requires Requests(ops)
    ensures r % 8 == 0 && (ops != [] ==> r > 8)
    decreases |ops|
  {
    hide BlockSize, Serves;
    if ops == [] then 0
    else
      RequestsOn(ops);
      var here, rest := BlockSize(ops[0].n, ops[0].small && bitmaps), Needed(ops[1..], bitmaps);
      Eights(here, rest);
      8 + here + rest
  }

  lemma RequestsOn(ops: seq<Op>)
    requires Requests(ops) && ops != []
    ensures ops[0].Get? && 0 < ops[0].n && Requests(ops[1..])
  {
    forall i | 0 <= i < |ops[1..]| ensures ops[1..][i].Get? && 0 < ops[1..][i].n <= 0xFFFF_FFF8 {
      assert ops[1..][i] == ops[i + 1];
    }
  }

  lemma Eights(a: nat, b: nat)
    requires a % 8 == 0 && b % 8 == 0
    ensures (8 + a + b) % 8 == 0
  {
  }

  predicate Requests(ops: seq<Op>) {
    forall i {:trigger ops[i]} :: 0 <= i < |ops| ==> ops[i].Get? && 0 < ops[i].n <= 0xFFFF_FFF8
  }

  /** Block i lies past those before it, and all of them are there. */
  ghost predicate InARow(places: seq<nat>, f: nat, ops: seq<Op>, bitmaps: bool)
    requires Requests(ops)
  {
    && |places| == |ops|
    && forall i {:trigger places[i]} :: 0 <= i < |ops| ==> places[i] == f + Needed(ops[..i], bitmaps) + 8
  }

  /** What a run of allocations makes of a buffer of one free block. */
  lemma {:induction false} RunFills(s: State, f: nat, ops: seq<Op>, cfg: Config)
    requires OneFree(s, f) && Requests(ops) && !cfg.movable && Run(s, ops, cfg).Some?
    ensures Gets(ops)
    ensures var end := f + Needed(ops, cfg.bitmaps); var places := Places(s, ops, cfg);
      if end <= s.l.full then InARow(places, f, ops, cfg.bitmaps) else 0 in places
    ensures var end := f + Needed(ops, cfg.bitmaps); var t := Run(s, ops, cfg).value;
      if end + 8 <= s.l.full then
        OneFree(t, end) && t.l.full == s.l.full && t.hwm == if ops == [] then s.hwm else Max(s.hwm, end + 8)
      else
        ops != [] ==> t.l.free == []
    decreases |ops|
  {
    hide State.Inv, Step, NoIdle, Allocation, CarvedSize, CarvedKind, Carved, OneFree, Needed, InARow;
    NeededOn(ops, cfg.bitmaps);
    if ops == [] {
      NoOps(s, f, cfg);
    } else {
      var n, small := ops[0].n, ops[0].small;
      FreeFacts(s, f);
      CarvedIsBlock(n, small, cfg);
      StepIs(s, ops[0], cfg);
      var size := BlockSize(n, small && cfg.bitmaps);
      var g := f + size + 8;
      var t := Step(s, ops[0], cfg).value;
      if g + 8 <= s.l.full {
        CarveStep(s, f, n, small, cfg);
        CarvedFacts(s, f, g, CarvedKind(n, small, cfg));
        RunFills(t, g, ops[1..], cfg);
        if g + Needed(ops[1..], cfg.bitmaps) <= s.l.full {
          RowOn(f, ops, cfg.bitmaps, Places(t, ops[1..], cfg), g);
        }
      } else {
        GetExhausts(s, f, n, small, cfg);
        EmptyStays(t, ops[1..], cfg);
        LastPlace(s, f, n, small, cfg);
        if ops[1..] == [] {
          RowOfOne(f, ops, cfg.bitmaps);
          assert Places(t, ops[1..], cfg) == [];
          assert Places(s, ops, cfg) == [PlaceOf(Allocation(s, n, small, cfg, true))];
        } else {
          NoPlace(t, ops[1..], cfg);
        }
      }
    }
  }

  lemma NeededOn(ops: seq<Op>, bitmaps: bool)
    requires Requests(ops)
    ensures Gets(ops) && Needed([], bitmaps) == 0
    ensures ops != [] ==>
      && Requests(ops[1..])
      && Needed(ops, bitmaps) == 8 + BlockSize(ops[0].n, ops[0].small && bitmaps) + Needed(ops[1..], bitmaps)
    ensures |ops| > 1 ==> Needed(ops[1..], bitmaps) > 8
  {
  }

  lemma NoOps(s: State, f: nat, cfg: Config)
    requires OneFree(s, f)
    ensures Gets([]) && Run(s, [], cfg) == Some(s) && Places(s, [], cfg) == [] && InARow([], f, [], cfg.bitmaps)
    ensures f + 8 <= s.l.full
  {
    TileAt(s.l, f);
  }

  lemma FreeFacts(s: State, f: nat)
    requires OneFree(s, f)
    ensures s.Inv() && f % 8 == 0 && s.l.full % 8 == 0 && f + 8 <= s.l.full
  {
    TileAt(s.l, f);
  }

  lemma CarvedFacts(s: State, f: nat, g: nat, kind: Kind)
    requires f <= g <= s.l.full
    ensures var t := Carved(s, f, g - f, kind); t.l.full == s.l.full && t.hwm == Max(s.hwm, g + 8)
  {
  }

  lemma RowOn(f: nat, ops: seq<Op>, bitmaps: bool, rest: seq<nat>, g: nat)
    requires ops != [] && Requests(ops) && Requests(ops[1..]) && InARow(rest, g, ops[1..], bitmaps)
    requires g == f + 8 + BlockSize(ops[0].n, ops[0].small && bitmaps)
    ensures InARow([f + 8] + rest, f, ops, bitmaps)
  {
    hide Needed, BlockSize;
    var places := [f + 8] + rest;
    forall i | 0 <= i < |ops| ensures places[i] == f + Needed(ops[..i], bitmaps) + 8 {
      NeededOn(ops[..i], bitmaps);
      if i == 0 {
        assert ops[..0] == [];
      } else {
        assert ops[..i][1..] == ops[1..][..i - 1];
        assert places[i] == rest[i - 1];
      }
    }
  }

  lemma RowOfOne(f: nat, ops: seq<Op>, bitmaps: bool)
    requires Requests(ops) && |ops| == 1
    ensures InARow([f + 8], f, ops, bitmaps)
  {
    assert ops[..0] == [];
  }

  /** The one free block is given whole, or is too small. */
  lemma LastPlace(s: State, f: nat, n: nat, small: bool, cfg: Config)
    requires OneFree(s, f) && 0 < n <= MAX_REQUEST && !cfg.movable
    requires s.l.full < f + BlockSize(n, small && cfg.bitmaps) + 16
    ensures var r := Allocation(s, n, small, cfg, true);
      PlaceOf(r) == if f + BlockSize(n, small && cfg.bitmaps) + 8 <= s.l.full then f + 8 else 0
  {
    hide Layout.Tiled, Layout.Listed, Allocation, MarkAfter, AskedFor, BlockSize, NoIdle;
    var size := BlockSize(n, small && cfg.bitmaps);
    NoLists(s, size);
    AllocationServes(s, n, size, small, cfg, true);
    OnlyFree(s, f, size + 8);
  }

  lemma NoLists(s: State, size: nat)
    requires s.Inv() && NoIdle(s.l)
    ensures size in {16, 32, 64, 128} ==> ListOf(s.l, size) == []
  {
  }

  lemma OnlyFree(s: State, f: nat, len: nat)
    requires OneFree(s, f)
    ensures if f + len <= s.l.full then LowestFit(s.l, f, len) else NoneFits(s.l, len)
    ensures forall x: nat :: LowestFit(s.l, x, len) ==> x == f
    ensures NoneFits(s.l, len) <==> f + len > s.l.full
  {
    forall x: nat | FitsAt(s.l, x, len) ensures x == f && f + len <= s.l.full { TileAt(s.l, x); }
    assert s.l.FreeAt(0);
    if f + len <= s.l.full { assert FitsAt(s.l, f, len); }
  }

  /** Where nothing is free no block is given. */
  lemma NoPlace(s: State, ops: seq<Op>, cfg: Config)
    requires s.Inv() && s.l.free == [] && NoIdle(s.l) && !cfg.movable && ops != [] && Requests(ops)
    requires Gets(ops) && Run(s, ops, cfg).Some?
    ensures 0 in Places(s, ops, cfg)
  {
    hide State.Inv, Step, Allocation, NoIdle;
    StepIs(s, ops[0], cfg);
    NothingGiven(s, ops[0].n, ops[0].small, cfg);
  }

  lemma NothingGiven(s: State, n: nat, small: bool, cfg: Config)
    requires s.Inv() && s.l.free == [] && NoIdle(s.l) && !cfg.movable && 0 < n <= MAX_REQUEST
    ensures PlaceOf(Allocation(s, n, small, cfg, true)) == 0
  {
    hide Layout.Tiled, Layout.Listed, Align8, ClassSize;
  }

  // ---- The parts of a new buffer ----

  /** Where the parts of a new buffer end. */
  function PartsEnd(parts: Parts, bitmaps: bool): (r: nat)
    requires parts.Ok()
    ensures r % 8 == 0 && r > 48
  {
    OpsRequest(parts);
    40 + Needed(parts.Ops(), bitmaps)
  }

  lemma OpsRequest(parts: Parts)
    requires parts.Ok()
    ensures Requests(parts.Ops()) && parts.Ops() != []
  {
  }

  /** A new buffer of `size` bytes holds the parts if and only if they end inside it. */
  lemma FitsExactly(size: nat, cfg: Config, parts: Parts)
    requires parts.Ok() && size % 8 == 0 && !cfg.movable
    ensures Fits(size, cfg, parts) <==> PartsEnd(parts, cfg.bitmaps) <= size
  {
    hide State.Inv, Step, Places, Run, Parts.Ops, Parts.Ok, InARow, Needed, OneFree;
    OpsRequest(parts);
    if HEADER_SIZE + HEADER <= size {
      MadeOk(size, parts);
      var s := Fresh(HEADER_SIZE, size);
      FixedRuns(s, parts.Ops(), cfg);
      FreshIsFree(size);
      RunFills(s, 40, parts.Ops(), cfg);
      if PartsEnd(parts, cfg.bitmaps) <= size {
        RowNotZero(Places(s, parts.Ops(), cfg), 40, parts.Ops(), cfg.bitmaps);
      }
    }
  }

  lemma FreshIsFree(size: nat)
    requires 48 <= size && size % 8 == 0
    ensures OneFree(Fresh(HEADER_SIZE, size), 40) && Fresh(HEADER_SIZE, size).hwm == 40
    ensures Fresh(HEADER_SIZE, size).l.full == size
  {
    FreshInv(40, size);
  }

  lemma RowNotZero(places: seq<nat>, f: nat, ops: seq<Op>, bitmaps: bool)
    requires Requests(ops) && InARow(places, f, ops, bitmaps)
    ensures 0 !in places
  {
  }

  /** The parts lie one after the other: the message at offset 48, its block, then the next. */
  lemma PartsInARow(size: nat, cfg: Config, parts: Parts)
    requires parts.Ok() && size % 8 == 0 && !cfg.movable && PartsEnd(parts, cfg.bitmaps) <= size
    requires HEADER_SIZE + HEADER <= size && Fresh(HEADER_SIZE, size).Inv()
    requires Gets(parts.Ops()) && Run(Fresh(HEADER_SIZE, size), parts.Ops(), cfg).Some?
    ensures Requests(parts.Ops())
    ensures InARow(Places(Fresh(HEADER_SIZE, size), parts.Ops(), cfg), 40, parts.Ops(), cfg.bitmaps)
  {
    hide State.Inv, Step, Places, Run, Parts.Ops, Parts.Ok, InARow, Needed, OneFree, Fits;
    OpsRequest(parts);
    FreshIsFree(size);
    RunFills(Fresh(HEADER_SIZE, size), 40, parts.Ops(), cfg);
  }

  /** What is left of a new buffer is marked, with a mark 8 bytes past the parts, if and only if 8 bytes are left. */
  lemma MarkedExactly(size: nat, cfg: Config, parts: Parts)
    requires parts.Ok() && size % 8 == 0 && !cfg.movable && PartsEnd(parts, cfg.bitmaps) <= size
    requires HEADER_SIZE + HEADER <= size && Fresh(HEADER_SIZE, size).Inv()
    requires Run(Fresh(HEADER_SIZE, size), parts.Ops(), cfg).Some?
    ensures var t := Run(Fresh(HEADER_SIZE, size), parts.Ops(), cfg).value; var end := PartsEnd(parts, cfg.bitmaps);
      if end + 8 <= size then MarkOf(t) == end && t.hwm == end + 8 else MarkOf(t) == 0
  {
    hide State.Inv, Step, Places, Run, Parts.Ops, Parts.Ok, InARow, Needed, OneFree, Fits, MarkOf;
    OpsRequest(parts);
    FreshIsFree(size);
    RunFills(Fresh(HEADER_SIZE, size), 40, parts.Ops(), cfg);
    var t := Run(Fresh(HEADER_SIZE, size), parts.Ops(), cfg).value;
    var end := PartsEnd(parts, cfg.bitmaps);
    if end + 8 <= size { MarkThere(t, end); } else { NoMark(t); }
  }

  lemma MarkThere(t: State, end: nat)
    requires OneFree(t, end) && t.hwm == end + 8
    ensures MarkOf(t) == end
  {
  }

  lemma NoMark(t: State)
    requires t.l.free == []
    ensures MarkOf(t) == 0
  {
  }

  // ---- The image ----

  lemma ScratchOn(size: nat, parts: Parts)
    requires parts.Ok() && size % 8 == 0 && 48 <= size
    ensures ScratchSize(size, parts) ==
      if size > 0x2_0000 then 0 else if PartsEnd(parts, true) <= size then size else ScratchSize(2 * size, parts)
  {
    hide Fits, Parts.Ok, PartsEnd;
    EvenMultiple(size);
    FitsExactly(size, Config(true, false, 0), parts);
  }

  /** The scratch memory is the least power of two from 4096 up to 131072 that holds the parts. */
  lemma ScratchIs(parts: Parts)
    requires parts.Ok()
    ensures var end := PartsEnd(parts, true);
      ScratchSize(4096, parts) ==
        if end <= 0x1000 then 0x1000 else if end <= 0x2000 then 0x2000 else if end <= 0x4000 then 0x4000
        else if end <= 0x8000 then 0x8000 else if end <= 0x1_0000 then 0x1_0000 else if end <= 0x2_0000 then 0x2_0000
        else 0
  {
    hide ScratchSize, PartsEnd, Parts.Ok;
    ScratchOn(0x1000, parts);
    ScratchOn(0x2000, parts);
    ScratchOn(0x4000, parts);
    ScratchOn(0x8000, parts);
    ScratchOn(0x1_0000, parts);
    ScratchOn(0x2_0000, parts);
    ScratchOn(0x4_0000, parts);
  }

  /**
  There is an image if and only if the parts and a free block header past them take no more than 64 KiB and the parts
  do not fill the first scratch memory that holds them.
  */
  lemma HasImageExactly(parts: Parts)
    requires parts.Ok()
    ensures var end := PartsEnd(parts, true);
      HasImage(parts) <==> end + 8 <= 0x1_0000 && end !in {0x1000, 0x2000, 0x4000, 0x8000}
  {
    hide ScratchSize, PartsEnd, Parts.Ok, Run, State.Inv, MarkOf, Parts.Ops;
    ScratchIs(parts);
    var size, end, cfg := ScratchSize(4096, parts), PartsEnd(parts, true), Config(true, false, 0);
    if size != 0 {
      MadeOk(size, parts);
      FixedRuns(Fresh(HEADER_SIZE, size), parts.Ops(), cfg);
      MarkedExactly(size, cfg, parts);
    }
  }

  /** The image is the parts and the free block header past them: a copy fits wherever those do. */
  lemma ImageSizeExactly(image: NewBufferImage)
    requires image.Valid() && image.bytes != []
    ensures image.parts.Ok() && |image.bytes| == PartsEnd(image.parts, true) + 8
  {
    hide Layout.Tiled, Layout.Listed, Made, Marked, Parts.Ok, PartsEnd, Run, Parts.Ops, Built, Places;
    var size, cfg := image.fullSize, Config(true, false, 0);
    MadeRun(image.made, size, cfg, image.parts, image.message, image.metadata, image.mem);
    MadeFits(image.made, size, cfg, image.parts, image.message, image.metadata, image.mem);
    FitsExactly(size, cfg, image.parts);
    MarkedExactly(size, cfg, image.parts);
    MarkIs(image.made, image.hwm - HEADER);
  }

  lemma MarkIs(s: State, mark: nat)
    requires Marked(s, mark) && 0 < mark
    ensures MarkOf(s) == mark
  {
  }
}
