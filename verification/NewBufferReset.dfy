/** A new buffer is one the runs that ResetFor() undoes start from. */
module NewBufferResets {
  import opened Bytes
  import opened Layouts
  import opened HeapSpec
  import opened HeapRuns
  import opened ResetSpec
  import opened PayloadBuffers
  import opened AllocatedBlocks
  import opened FieldTables
  import opened MessageRuntimes
  import opened Images = NewBufferImages
  import Growth = ControlGrowth

  /** Everything but the one free block is allocated. */
  ghost predicate OnlyLive(l: Layout, f: nat) {
    forall o {:trigger o in l.tiles} :: o in l.tiles && o != f ==> Live(l, o)
  }

  lemma CarvedOnlyLive(s: State, f: nat, need: nat, kind: Kind)
    requires OneFree(s, f) && OnlyLive(s.l, f) && HEADER <= need && f + need <= s.l.full
    requires kind.Regular? || kind.Small?
    ensures OnlyLive(Carved(s, f, need, kind).l, f + need)
  {
  }

  /** Allocating from the one free block, as long as one is left, loses nothing. */
  lemma {:induction false} RunOnlyLive(s: State, ops: seq<Op>, cfg: Config, f: nat, mark: nat)
    requires OneFree(s, f) && OnlyLive(s.l, f) && Gets(ops) && !cfg.movable
    requires Run(s, ops, cfg).Some? && OneFree(Run(s, ops, cfg).value, mark)
    ensures OnlyLive(Run(s, ops, cfg).value.l, mark)
    decreases |ops|
  {
    hide State.Inv, Carved, Step, CarvedSize, NoIdle, Allocation, OnlyLive;
    if ops != [] {
      var n, small := ops[0].n, ops[0].small;
      var size := CarvedSize(n, small, cfg);
      StepIs(s, ops[0], cfg);
      if n == 0 {
        RunOnlyLive(s, ops[1..], cfg, f, mark);
      } else if f + size + 2 * HEADER <= s.l.full {
        CarveStep(s, f, n, small, cfg);
        CarvedOnlyLive(s, f, size + HEADER, CarvedKind(n, small, cfg));
        RunOnlyLive(Step(s, ops[0], cfg).value, ops[1..], cfg, f + size + HEADER, mark);
      } else {
        GetExhausts(s, f, n, small, cfg);
        EmptyStays(Step(s, ops[0], cfg).value, ops[1..], cfg);
      }
    } else {
      assert f == mark;
    }
  }

  // ---- The control block ----

  /** A block for n bytes, a multiple of 8, is recorded to have just them; it is small only if class lists are used. */
  lemma AllocatedExactly(s: State, n: nat, cfg: Config)
    requires s.Inv() && n % 8 == 0 && n <= MAX_REQUEST
    ensures var r := Allocation(s, n, true, cfg, true);
      r.Block? ==>
        LiveAt(r.s.l, r.p) && Recorded(r.s.l.tiles[r.p - HEADER]) == n
        && (r.s.l.tiles[r.p - HEADER].kind.Small? ==> cfg.bitmaps)
  {
    hide State.Inv, Carve, AllocateSmall;
    AllocationIsOk(s, n, true, cfg, true);
    Align8Covers(n);
    Align8Multiple(n);
    if !cfg.bitmaps && n != 0 && !s.failed { CarveIsOk(s, Align8(n), Regular, cfg, n <= s.l.full); }
  }

  /** An allocation keeps the blocks there are. */
  lemma StepKeepsBlock(s: State, n: nat, cfg: Config, p: nat)
    requires s.Inv() && LiveAt(s.l, p) && Step(s, Get(n, true), cfg).Some?
    ensures var t := Step(s, Get(n, true), cfg).value.l; LiveAt(t, p) && t.tiles[p - HEADER] == s.l.tiles[p - HEADER]
  {
    hide State.Inv, Allocation;
    AllocationIsOk(s, n, true, cfg, true);
    assert Live(s.l, p - HEADER);
  }

  /** The block of the second of three allocations is exactly that big in the end. */
  lemma SecondExactly(s0: State, ops: seq<Op>, cfg: Config, p: nat)
    requires s0.Inv() && |ops| == 3 && Gets(ops) && Run(s0, ops, cfg).Some? && p != 0
    requires ops[1].n % 8 == 0 && ops[1].small && ops[2].small
    requires var places := Places(s0, ops, cfg); |places| == 3 && places[1] == p
    ensures var l := Run(s0, ops, cfg).value.l;
      LiveAt(l, p) && Recorded(l.tiles[p - HEADER]) == ops[1].n && (l.tiles[p - HEADER].kind.Small? ==> cfg.bitmaps)
  {
    hide State.Inv, Allocation, Step;
    StepIs(s0, ops[0], cfg);
    var s1 := Step(s0, ops[0], cfg).value;
    RunFirst(s0, ops, cfg, s1);
    assert ops[1..][0] == ops[1] && ops[1..][1..] == ops[2..] && ops[2..][0] == ops[2];
    StepIs(s1, ops[1], cfg);
    var s2 := Step(s1, ops[1], cfg).value;
    RunFirst(s1, ops[1..], cfg, s2);
    AllocatedExactly(s1, ops[1].n, cfg);
    StepIs(s2, ops[2], cfg);
    var s3 := Step(s2, ops[2], cfg).value;
    RunFirst(s2, ops[2..], cfg, s3);
    StepKeepsBlock(s2, ops[2].n, cfg, p);
  }

  lemma ControlWords(m: seq<byte>, parts: Parts, block: nat, c: nat)
    requires parts.Ok() && block + |parts.tables| <= WORD_LIMIT && c != 0 && parts.types > 1
    requires HoldsBytes(m, c, Images.ControlBytes(parts, block))
    ensures ControlIn(m, c) == Growth.Control(c, parts.types) && Get32(m, c + COUNT) == |parts.keys| <= parts.types
  {
    hide Get32, HoldsBytes;
    var b := Images.ControlBytes(parts, block);
    HeldInside(m, c, b);
    StartWords(b, [CONTROL_MAGIC, CONTROL_VERSION, 0, |parts.keys|, parts.types]);
    HeldWord(m, c, b, 0);
    HeldWord(m, c, b, 4);
    HeldWord(m, c, b, COUNT);
    HeldWord(m, c, b, CAPACITY);
  }

  /** The words at the start of some bytes. */
  lemma StartWords(b: seq<byte>, words: seq<word>)
    requires |words| == 5 && |b| >= 20
    requires b[..20] == Word(words[0]) + Word(words[1]) + Word(words[2]) + Word(words[3]) + Word(words[4])
    ensures forall i {:trigger words[i]} :: 0 <= i < 5 ==> Get32(b, 4 * i) == words[i]
  {
    forall i | 0 <= i < 5 ensures Get32(b, 4 * i) == words[i] {
      assert b[..20][4 * i..4 * i + 4] == Word(words[i]);
      assert Get32(b, 4 * i) == Get32(b[..20][4 * i..4 * i + 4], 0);
    }
  }

  // ---- The new buffer ----

  lemma AllLive(s: State, size: nat, parts: Parts, cfg: Config, mark: nat)
    requires parts.Ok() && HEADER_SIZE + HEADER <= size && size % 8 == 0 && !cfg.movable
    requires Fresh(HEADER_SIZE, size).Inv() && Run(Fresh(HEADER_SIZE, size), parts.Ops(), cfg) == Some(s)
    requires Marked(s, mark)
    ensures forall o :: o < mark && o in s.l.tiles ==> Live(s.l, o)
  {
    hide State.Inv, Run;
    MadeOk(size, parts);
    FreshOneFree(size, size);
    RunOnlyLive(Fresh(HEADER_SIZE, size), parts.Ops(), cfg, HEADER_SIZE, mark);
  }

  /** A block that is allocated in a marked buffer lies below the mark. */
  lemma BelowMark(s: State, mark: nat, p: nat)
    requires Marked(s, mark) && LiveAt(s.l, p) && p < s.l.End(p - HEADER)
    ensures p < mark && s.l.End(p - HEADER) <= mark
  {
    NothingPast(s.l, mark);
    assert s.l.FreeAt(0) && s.l.Apart(p - HEADER, mark) && s.l.TileOk(p - HEADER);
  }

  lemma ControlReady(s: State, size: nat, parts: Parts, cfg: Config, message: nat, metadata: nat, m: seq<byte>)
    requires parts.Ok() && HEADER_SIZE + HEADER <= size && size % 8 == 0 && parts.types > 1
    requires Made(s, size, cfg, parts, message, metadata, m)
    ensures ControlIn(m, metadata) == Growth.Control(metadata, parts.types)
    ensures LiveAt(s.l, metadata) && Recorded(s.l.tiles[metadata - HEADER]) == Growth.ControlBytes(parts.types)
    ensures s.l.tiles[metadata - HEADER].kind.Small? ==> cfg.bitmaps
    ensures IsControl(m, metadata) && Get32(m, metadata + COUNT) == |parts.keys|
  {
    hide State.Inv, Run, Places, Get32, Images.ControlBytes;
    MadeRun(s, size, cfg, parts, message, metadata, m);
    MadeOk(size, parts);
    var places := Places(Fresh(HEADER_SIZE, size), parts.Ops(), cfg);
    ControlWords(m, parts, places[2], metadata);
    SecondExactly(Fresh(HEADER_SIZE, size), parts.Ops(), cfg, metadata);
  }

  /**
  If a new buffer, constructed or copied from its image, has a mark and more than a free block's header past it,
  it is one that the runs ResetFor() undoes start from, and has a main message to empty.
  */
  lemma NewBufferBegins(s: State, size: nat, parts: Parts, cfg: Config, message: nat, metadata: nat, m: seq<byte>)
    requires parts.Ok() && HEADER_SIZE + HEADER <= size && size % 8 == 0 && !cfg.movable && |m| == s.l.full
    requires Made(s, size, cfg, parts, message, metadata, m)
    requires MarkOf(s) != 0 && s.l.tiles[MarkOf(s)].len > HEADER
    ensures s.Inv() && Growth.Begins(Growth.Pair(s, ControlIn(m, metadata)), cfg, MarkOf(s))
    ensures var x := Growth.Pair(s, ControlIn(m, metadata)); SinceMark(x, [], cfg, MarkOf(s), x)
    ensures ControlOk(m, s.l, metadata) && MainMessage(s.l, message, parts.binarySize, MarkOf(s))
  {
    hide Run, Places, Get32, Images.ControlBytes, Layout.Tiled, Layout.Listed;
    MadeRun(s, size, cfg, parts, message, metadata, m);
    var mark := MarkOf(s);
    AllLive(s, size, parts, cfg, mark);
    RoomInside(s.l, message, parts.binarySize);
    BelowMark(s, mark, message);
    if parts.types > 1 {
      ControlReady(s, size, parts, cfg, message, metadata, m);
      RoomInside(s.l, metadata, parts.ControlSize());
      BelowMark(s, mark, metadata);
    }
  }
}
