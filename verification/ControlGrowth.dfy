/**
Runs since the mark in which the control block, which lies below it, grows: it stays where it was, in its size
class, or it reaches past the mark for good, and then nothing is freed at once.
*/
module ControlGrowth {
  import opened Layouts
  import opened HeapSpec
  import opened HeapLaws
  import opened HeapRuns
  import opened ResetSpec

  /** The bytes of a control block for `capacity` types. */
  function ControlBytes(capacity: nat): nat {
    24 + 16 * capacity
  }

  /** Where the control block is and for how many types, or that there is none. */
  datatype Control = NoControl | Control(at: nat, capacity: nat) {
    /** It is not wholly below the mark. */
    predicate Strayed(mark: nat) {
      Control? && at + ControlBytes(capacity) > mark
    }

    /** Its tile, or -1. */
    function Tile(): int {
      if Control? then at - HEADER else -1
    }
  }

  /** An operation of the message's own, or doubling the capacity of the control block. */
  datatype MetaOp = Plain(op: Op) | Extend

  datatype Pair = Pair(s: State, control: Control)

  /** The block at p is none of those below the mark, and not the control block. */
  ghost predicate Own(l0: Layout, k0: Control, control: Control, mark: nat, p: nat) {
    p >= HEADER && !(p - HEADER < mark && p - HEADER in l0.tiles && p - HEADER != k0.Tile())
      && p - HEADER != control.Tile()
  }

  /** Resizing the control block at p to twice its capacity. */
  ghost function Extension(s: State, control: Control, cfg: Config): Outcome
    requires s.Inv() && control.Control? && LiveAt(s.l, control.at)
  {
    Reallocation(s, control.at, ControlBytes(2 * control.capacity), true, cfg)
  }

  /** It is resized as any block is, to just the 24 bytes before its entries and 16 for each of twice as many. */
  lemma ExtensionIsExact(s: State, control: Control, cfg: Config)
    requires s.Inv() && !s.failed && control.Control? && LiveAt(s.l, control.at)
    requires 24 + 32 * control.capacity <= 0xFFFF_FFF8
    ensures var r, n := Extension(s, control, cfg), 24 + 32 * control.capacity;
      && Routed(s, control.at, n, true, cfg, r)
      && (r.Block? ==> Exactly(r.s.l, r.p, n)) && (r.Null? ==> OutOfMemory(s, r.s, cfg))
  {
    hide Layout.Tiled, Layout.Listed, Reallocation, Routed, Exactly, OutOfMemory;
    var n := 24 + 32 * control.capacity;
    ReallocationRoutes(s, control.at, n, true, cfg);
    ResizedExactly(s, control.at, n, true, cfg);
    NotResizedNoMemory(s, control.at, n, true, cfg);
  }

  ghost predicate MetaLegal(l0: Layout, k0: Control, x: Pair, op: MetaOp, mark: nat) {
    match op
    case Plain(o) => Legal(x.s, o) && (!o.Get? ==> Own(l0, k0, x.control, mark, o.p))
    case Extend =>
      x.control.Control? && LiveAt(x.s.l, x.control.at) && ControlBytes(2 * x.control.capacity) <= 0xFFFF_FFF8
  }

  /** What follows an operation, if the process goes on. */
  ghost function MetaStep(x: Pair, op: MetaOp, cfg: Config): (r: Option<Pair>)
    requires x.s.Inv() && (op.Plain? ==> Legal(x.s, op.op))
    requires (op.Extend? ==> x.control.Control? && LiveAt(x.s.l, x.control.at))
    ensures r.Some? ==> r.value.s.Inv()
  {
    hide State.Inv, Step, Reallocation;
    match op
    case Plain(o) => var t := Step(x.s, o, cfg); if t.None? then None else Some(x.(s := t.value))
    case Extend =>
      ReallocationIsOk(x.s, x.control.at, ControlBytes(2 * x.control.capacity), true, cfg);
      match Extension(x.s, x.control, cfg)
      case Block(q, t) => Some(Pair(t, Control(q, 2 * x.control.capacity)))
      case Null(t) => Some(x.(s := t))
      case Aborted => None
  }

  /** What the operation allocates leaves more than a header of the buffer's end free. */
  ghost predicate MetaKeepsTail(x: Pair, op: MetaOp, cfg: Config)
    requires x.s.Inv() && (op.Plain? ==> Legal(x.s, op.op))
    requires (op.Extend? ==> x.control.Control? && LiveAt(x.s.l, x.control.at))
    requires MetaStep(x, op, cfg).Some?
  {
    match op
    case Plain(o) => KeepsTail(x.s, o, cfg)
    case Extend =>
      && (MetaStep(x, op, cfg).value.s.failed || TailFree(MetaStep(x, op, cfg).value.s.l))
      && MoveKeepsTail(x.s, x.control.at, ControlBytes(2 * x.control.capacity), true, cfg)
  }

  /** A run on the message's own blocks and the control block; if `tail`, no allocation of it takes the buffer's end. */
  ghost predicate MetaRuns(l0: Layout, k0: Control, x: Pair, ops: seq<MetaOp>, cfg: Config, mark: nat, tail: bool)
    requires x.s.Inv()
    decreases |ops|
  {
    ops == []
    || (MetaLegal(l0, k0, x, ops[0], mark) && MetaStep(x, ops[0], cfg).Some?
        && (tail ==> MetaKeepsTail(x, ops[0], cfg))
        && MetaRuns(l0, k0, MetaStep(x, ops[0], cfg).value, ops[1..], cfg, mark, tail))
  }

  ghost function MetaRun(l0: Layout, k0: Control, x: Pair, ops: seq<MetaOp>, cfg: Config, mark: nat, tail: bool): Pair
    requires x.s.Inv() && MetaRuns(l0, k0, x, ops, cfg, mark, tail)
    decreases |ops|
  {
    if ops == [] then x else MetaRun(l0, k0, MetaStep(x, ops[0], cfg).value, ops[1..], cfg, mark, tail)
  }

  // ---- The marked buffer ----

  /** A newly marked buffer: every tile below the mark is allocated, and the control block among them is just as big as
      it has to be. */
  ghost predicate Ready(x: Pair, mark: nat) {
    && Marked(x.s, mark) && (forall o :: o < mark && o in x.s.l.tiles ==> Live(x.s.l, o))
    && (x.control.Control? ==>
      && LiveAt(x.s.l, x.control.at) && x.control.at < mark && 0 < x.control.capacity
      && Recorded(x.s.l.tiles[x.control.at - HEADER]) == ControlBytes(x.control.capacity))
  }

  /** The marked state with the control block of its present size. */
  ghost function Rebased(s: State, control: Control): State {
    if control.Control? && control.at >= HEADER && control.at - HEADER in s.l.tiles
      && s.l.tiles[control.at - HEADER].kind.Small? then
      s.(l := Mark(s.l, control.at - HEADER, Small(ControlBytes(control.capacity))))
    else s
  }

  lemma RebasedSame(x: Pair, mark: nat)
    requires Ready(x, mark)
    ensures Rebased(x.s, x.control) == x.s
  {
    if x.control.Control? {
      assert x.s.l.tiles[x.control.at - HEADER := x.s.l.tiles[x.control.at - HEADER]] == x.s.l.tiles;
    }
  }

  // ---- While the control block is below the mark ----

  /** Nothing below the mark has changed but the size the control block is recorded to have. */
  ghost predicate Near(x0: Pair, x: Pair, mark: nat, tail: bool) {
    && Ready(Pair(Rebased(x0.s, x.control), x.control), mark) && x.control.Control? == x0.control.Control?
    && (x.control.Control? ==>
      x.control.at == x0.control.at
      && ControlBytes(x0.control.capacity) <= ControlBytes(x.control.capacity))
    && Since(Rebased(x0.s, x.control).l, tail, x.s, mark)
  }

  lemma NearStarts(x: Pair, mark: nat, tail: bool)
    requires Ready(x, mark) && x.s.l.tiles[mark].len > HEADER
    ensures Near(x, x, mark, tail)
  {
    hide Layout.Tiled, Layout.Listed;
    RebasedSame(x, mark);
    MarkedQuiet(x.s, mark);
    MarkedSince(x.s, tail, mark);
  }

  /** A block of the message's own is past the mark while the control block is below it. */
  lemma OwnIsPast(x0: Pair, x: Pair, mark: nat, tail: bool, p: nat)
    requires Near(x0, x, mark, tail) && LiveAt(x.s.l, p) && Own(x0.s.l, x0.control, x.control, mark, p)
    ensures p >= mark + HEADER
  {
    hide Layout.Tiled, Layout.Listed;
  }

  lemma NearPlain(x0: Pair, x: Pair, op: Op, cfg: Config, mark: nat, tail: bool)
    requires Near(x0, x, mark, tail) && x.s.Inv() && Legal(x.s, op)
    requires (!op.Get? ==> Own(x0.s.l, x0.control, x.control, mark, op.p))
    requires Step(x.s, op, cfg).Some? && (tail ==> KeepsTail(x.s, op, cfg))
    ensures Near(x0, x.(s := Step(x.s, op, cfg).value), mark, tail)
  {
    hide State.Inv, Step, Since, KeepsTail, Marked;
    if !op.Get? { OwnIsPast(x0, x, mark, tail, op.p); }
    StepSince(Rebased(x0.s, x.control).l, tail, x.s, op, cfg, mark);
  }

  /** Growing within its size class the control block stays where it is. */
  lemma NearInClass(x0: Pair, x: Pair, cfg: Config, mark: nat, tail: bool)
    requires Near(x0, x, mark, tail) && x.s.Inv() && x.control.Control? && LiveAt(x.s.l, x.control.at)
    requires !NeedsMove(x.s, x.control.at, ControlBytes(2 * x.control.capacity), true, cfg)
    requires x.s.l.tiles[x.control.at - HEADER].kind.Small?
    ensures MetaStep(x, Extend, cfg).Some? && Near(x0, MetaStep(x, Extend, cfg).value, mark, tail)
  {
    var o, n := x.control.at - HEADER, ControlBytes(2 * x.control.capacity);
    ReallocationIsOk(x.s, x.control.at, n, true, cfg);
    assert x.s.l.TileOk(o);
    hide State.Inv, Layout.Tiled, Layout.Listed;
    var b := Rebased(x0.s, x.control);
    var y := Pair(x.s.(l := Mark(x.s.l, o, Small(n))), Control(x.control.at, 2 * x.control.capacity));
    assert MetaStep(x, Extend, cfg) == Some(y);
    assert Fixed(b.l, x.s.l, mark);
    assert b.l.tiles[o] == x.s.l.tiles[o];
    RebasedTwice(x0.s, x.control, y.control);
    RemarkedReady(b, x.control, y.control, mark);
    RemarkedSince(b.l, tail, x.s, o, n, mark);
  }

  lemma RebasedTwice(s: State, k: Control, g: Control)
    requires k.Control? && g.Control? && k.at == g.at
    ensures Rebased(s, g) == Rebased(Rebased(s, k), g)
  {
    var o := k.at - HEADER;
    if k.at >= HEADER && o in s.l.tiles && s.l.tiles[o].kind.Small? {
      assert Rebased(s, g).l.tiles == Rebased(Rebased(s, k), g).l.tiles;
    }
  }

  lemma RemarkedReady(b: State, k: Control, g: Control, mark: nat)
    requires Ready(Pair(b, k), mark) && k.Control? && g.Control? && k.at == g.at && k.capacity <= g.capacity
    requires b.l.tiles[k.at - HEADER].kind.Small? && ControlBytes(g.capacity) <= 128
    requires ClassOf(ControlBytes(g.capacity)) == ClassOf(ControlBytes(k.capacity))
    ensures Ready(Pair(Rebased(b, g), g), mark)
  {
    var o := k.at - HEADER;
    assert b.l.TileOk(o);
    MarkInv(b.l, o, Small(ControlBytes(g.capacity)));
    hide Layout.Tiled, Layout.Listed;
  }

  lemma RemarkedSince(l0: Layout, tail: bool, s: State, o: nat, n: nat, mark: nat)
    requires Since(l0, tail, s, mark) && o < mark && o in l0.tiles && Live(s.l, o)
    requires s.(l := Mark(s.l, o, Small(n))).Inv()
    ensures Since(Mark(l0, o, Small(n)), tail, s.(l := Mark(s.l, o, Small(n))), mark)
  {
    hide Layout.Tiled, Layout.Listed;
  }

  // ---- Once the control block has strayed ----

  /** The tiles below the mark but the control block's first are as they were. */
  ghost predicate Held(x0: Pair, l: Layout, mark: nat) {
    l.start == x0.s.l.start && forall o {:trigger Live(l, o)} {:trigger o in x0.s.l.tiles} ::
      o < mark && o in x0.s.l.tiles && o != x0.control.Tile() ==> Live(l, o) && l.tiles[o] == x0.s.l.tiles[o]
  }

  ghost predicate Stays(x0: Pair, mark: nat, o: int) {
    0 <= o < mark && o in x0.s.l.tiles && o != x0.control.Tile()
  }

  ghost predicate Far(x0: Pair, x: Pair, mark: nat, tail: bool) {
    && x.s.Inv() && x0.control.Control? && x.control.Control? && x.control.Strayed(mark)
    && LiveAt(x.s.l, x.control.at) && !Stays(x0, mark, x.control.Tile()) && Held(x0, x.s.l, mark)
    && ControlBytes(x.control.capacity) <= Recorded(x.s.l.tiles[x.control.at - HEADER])
    && x0.control.Tile() in x0.s.l.tiles
      && ControlBytes(x.control.capacity) > x0.s.l.tiles[x0.control.Tile()].len - HEADER
    && (tail ==> x.s.hwm > mark + HEADER)
  }

  /** The tile that byte x is in. */
  lemma {:induction false} TileAround(l: Layout, o: nat, x: nat) returns (r: nat)
    requires l.Inv() && o in l.tiles && o <= x < l.full
    ensures r in l.tiles && r <= x < l.End(r)
    decreases x - o
  {
    assert l.TileOk(o);
    r := o;
    if l.End(o) <= x { r := TileAround(l, l.End(o), x); }
  }

  /** A block too big for where the control block was, and in the place of none that stays, reaches past the mark. */
  lemma TooBigStrays(x0: Pair, l: Layout, q: nat, n: nat, mark: nat)
    requires Ready(x0, mark) && x0.control.Control? && Held(x0, l, mark) && l.Inv()
    requires LiveAt(l, q) && !Stays(x0, mark, q - HEADER) && n <= Recorded(l.tiles[q - HEADER])
    requires n > x0.s.l.tiles[x0.control.at - HEADER].len - HEADER
    ensures q + n > mark
  {
    var l0, c, o := x0.s.l, x0.control.at - HEADER, q - HEADER;
    assert l.TileOk(o) && l0.TileOk(c) && l0.TileOk(mark);
    var e: nat := l0.End(c);
    assert l.Apart(o, e) && (e < mark ==> Live(l, e));
    if o < mark {
      StartIs(l0);
      var r := TileAround(l0, l0.start, o);
      TileBelow(x0, l, o, r, mark);
    }
  }

  lemma TileBelow(x0: Pair, l: Layout, o: nat, r: nat, mark: nat)
    requires Ready(x0, mark) && Held(x0, l, mark) && l.Inv() && o in l.tiles && !Stays(x0, mark, o) && o < mark
    requires r in x0.s.l.tiles && r <= o < x0.s.l.End(r)
    ensures r == x0.control.Tile()
  {
    assert l.Apart(r, o) && x0.s.l.Apart(r, mark);
    assert r == x0.control.Tile() || Live(l, r);
  }

  lemma StartIs(l: Layout)
    requires l.Inv() && l.tiles != map[]
    ensures l.start in l.tiles
  {
    var o :| o in l.tiles;
    assert l.TileOk(o);
  }

  lemma HeldAfter(x0: Pair, l: Layout, r: Layout, but: int, mark: nat)
    requires Held(x0, l, mark) && Keeps(l, r, but) && r.start == l.start && !Stays(x0, mark, but)
    ensures Held(x0, r, mark)
  {
    forall o | o < mark && o in x0.s.l.tiles && o != x0.control.Tile()
      ensures Live(r, o)
      && r.tiles[o] == x0.s.l.tiles[o] {
      assert Live(l, o);
    }
  }

  // ---- The start of the heap ----

  lemma CarveStart(s: State, size: nat, kind: Kind, cfg: Config, inPlace: bool)
    requires s.Inv() && !s.failed
    ensures !Carve(s, size, kind, cfg, inPlace).Aborted? ==> Carve(s, size, kind, cfg, inPlace).s.l.start == s.l.start
    ensures !Carve(s, size, kind, cfg, inPlace).Aborted? ==> Carve(s, size, kind, cfg, inPlace).s.hwm >= s.hwm
    decreases Growths(s.l, size + HEADER)
  {
    hide Layout.Tiled, Layout.Listed, Doubled, Growths;
    FullPositive(s);
    var need := size + HEADER;
    var newFull := Doubled(2 * s.l.full, need);
    if FirstFit(s.l, need, 0) == |s.l.free| && cfg.movable && newFull <= cfg.limit {
      GrowthsDecrease(s.l, need, newFull);
      if size != 0 { CarveStart(s.(l := Grow(s.l, newFull)), size, kind, cfg, true); }
    }
  }

  lemma FullPositive(s: State)
    requires s.Inv()
    ensures 0 < s.l.full
  {
  }

  lemma AllocationStart(s: State, n: nat, small: bool, cfg: Config)
    requires s.Inv()
    ensures !Allocation(s, n, small, cfg, true).Aborted? ==> Allocation(s, n, small, cfg, true).s.l.start == s.l.start
    ensures !Allocation(s, n, small, cfg, true).Aborted? ==> Allocation(s, n, small, cfg, true).s.hwm >= s.hwm
  {
    hide Layout.Tiled, Layout.Listed, Align8, Carve;
    if n != 0 && !s.failed {
      if small && cfg.bitmaps && ClassOf(n) < CLASSES { CarveStart(s, ClassSize(ClassOf(n)), Small(n), cfg, true); }
      CarveStart(s, Align8(n), Regular, cfg, n <= s.l.full);
    }
  }

  lemma ReleaseStart(s: State, p: nat)
    requires s.Inv() && LiveAt(s.l, p)
    ensures Release(s, p).l.start == s.l.start && Release(s, p).hwm == s.hwm
  {
    MarkInv(s.l, p - HEADER, Lost);
    hide Layout.Tiled, Layout.Listed, Insert;
    InsertSame(Mark(s.l, p - HEADER, Lost), p - HEADER);
  }

  lemma ResizedStart(s: State, o: nat, size: nat)
    requires s.Inv() && Live(s.l, o) && s.l.tiles[o].kind.Regular? && size % 8 == 0 && CanStay(s.l, o, size)
    ensures Resized(s, o, size).Block? && Resized(s, o, size).s.l.start == s.l.start
    ensures Resized(s, o, size).s.hwm >= s.hwm
  {
    TileIsOk(s, o);
    hide Layout.Tiled, Layout.Listed, Shrink, ExpandUp, SlideDown;
    var more := size + HEADER - s.l.tiles[o].len;
    if more < 0 {
      ShrinkStart(s, o, size);
    } else if more > 0 {
      if CanExpandUp(s.l, o, more) {
        ExpandUpIsOk(s.l, Below(s.l.free, o), o, more);
      } else {
        SlideDownIsOk(s.l, Below(s.l.free, o), o, size);
      }
    }
  }

  lemma ShrinkStart(s: State, o: nat, size: nat)
    requires s.Inv() && Live(s.l, o) && s.l.tiles[o].kind.Regular? && size % 8 == 0
    requires size + 2 * HEADER <= s.l.tiles[o].len
    ensures Shrink(s, o, size).l.start == s.l.start && Shrink(s, o, size).hwm == s.hwm
  {
    MarkInv(s.l, o, Lost);
    CutInv(Mark(s.l, o, Lost), o, size + HEADER);
    MarkInv(Cut(Mark(s.l, o, Lost), o, size + HEADER), o, Regular);
    hide Layout.Tiled, Layout.Listed, Insert;
    InsertSame(Mark(Cut(Mark(s.l, o, Lost), o, size + HEADER), o, Regular), o + HEADER + size);
  }

  lemma MovedStart(s: State, p: nat, n: nat, small: bool, cfg: Config)
    requires s.Inv() && LiveAt(s.l, p)
    ensures !Moved(s, p, n, small, cfg).Aborted? ==> Moved(s, p, n, small, cfg).s.l.start == s.l.start
    ensures !Moved(s, p, n, small, cfg).Aborted? ==> Moved(s, p, n, small, cfg).s.hwm >= s.hwm
  {
    hide State.Inv, Allocation, Release;
    AllocationIsOk(s, n, small, cfg, true);
    AllocationStart(s, n, small, cfg);
    assert Live(s.l, p - HEADER);
    var r := Allocation(s, n, small, cfg, true);
    if r.Block? { ReleaseStart(r.s, p); }
  }

  lemma ReallocationStart(s: State, p: nat, n: nat, small: bool, cfg: Config)
    requires s.Inv() && LiveAt(s.l, p)
    ensures !Reallocation(s, p, n, small, cfg).Aborted? ==> Reallocation(s, p, n, small, cfg).s.l.start == s.l.start
    ensures !Reallocation(s, p, n, small, cfg).Aborted? ==> Reallocation(s, p, n, small, cfg).s.hwm >= s.hwm
  {
    hide State.Inv, Moved, Resized, CanStay, Align8;
    Align8Multiple(n);
    MovedStart(s, p, n, small, cfg);
    MovedStart(s, p, Align8(n), small, cfg);
    if s.l.tiles[p - HEADER].kind.Regular? && CanStay(s.l, p - HEADER, Align8(n)) {
      ResizedStart(s, p - HEADER, Align8(n));
    }
  }

  // ---- Steps ----

  lemma FarPlain(x0: Pair, x: Pair, op: Op, cfg: Config, mark: nat, tail: bool)
    requires Far(x0, x, mark, tail) && Legal(x.s, op) && (!op.Get? ==> Own(x0.s.l, x0.control, x.control, mark, op.p))
    requires Step(x.s, op, cfg).Some?
    ensures Far(x0, x.(s := Step(x.s, op, cfg).value), mark, tail)
  {
    hide State.Inv, Allocation, Reallocation, Release, Keeps;
    var t := Step(x.s, op, cfg).value;
    match op {
      case Get(n, small) =>
        AllocationIsOk(x.s, n, small, cfg, true);
        AllocationStart(x.s, n, small, cfg);
        HeldAfter(x0, x.s.l, t.l, -1, mark);
        StillLive(x.s.l, t.l, -1, x.control.at);
      case Put(p) =>
        ReleaseIsOk(x.s, p);
        ReleaseStart(x.s, p);
        HeldAfter(x0, x.s.l, t.l, p - HEADER, mark);
        StillLive(x.s.l, t.l, p - HEADER, x.control.at);
      case Resize(p, n, small) =>
        ReallocationIsOk(x.s, p, n, small, cfg);
        ReallocationStart(x.s, p, n, small, cfg);
        var but := if Reallocation(x.s, p, n, small, cfg).Block? then p - HEADER else -1;
        HeldAfter(x0, x.s.l, t.l, but, mark);
        StillLive(x.s.l, t.l, but, x.control.at);
    }
  }

  lemma StillLive(l: Layout, r: Layout, but: int, p: nat)
    requires Keeps(l, r, but) && LiveAt(l, p) && p - HEADER != but
    ensures LiveAt(r, p) && r.tiles[p - HEADER] == l.tiles[p - HEADER]
  {
    assert Live(l, p - HEADER);
  }

  lemma NotStaying(x0: Pair, l: Layout, mark: nat, q: nat)
    requires Held(x0, l, mark) && q >= HEADER && !LiveAt(l, q)
    ensures !Stays(x0, mark, q - HEADER)
  {
    assert !Live(l, q - HEADER);
  }

  lemma Multiple8(capacity: nat)
    ensures ControlBytes(capacity) % 8 == 0
    ensures ControlBytes(capacity) <= 0xFFFF_FFF8 ==> Align8(ControlBytes(capacity)) == ControlBytes(capacity)
  {
  }

  /** Wherever a control block that has grown out of its first place is put, it has strayed. */
  lemma ExtendedFar(x0: Pair, x: Pair, cfg: Config, mark: nat, tail: bool, q: nat, t: State)
    requires Ready(x0, mark) && x0.control.Control? && x.s.Inv() && x.control.Control? && LiveAt(x.s.l, x.control.at)
    requires ControlBytes(2 * x.control.capacity) <= 0xFFFF_FFF8 && Extension(x.s, x.control, cfg) == Block(q, t)
    requires Held(x0, x.s.l, mark) && !Stays(x0, mark, x.control.Tile())
    requires ControlBytes(2 * x.control.capacity) > x0.s.l.tiles[x0.control.at - HEADER].len - HEADER
    requires tail ==> t.hwm > mark + HEADER
    ensures Far(x0, Pair(t, Control(q, 2 * x.control.capacity)), mark, tail)
  {
    hide State.Inv, Reallocation, Keeps, Ready, ControlBytes, Align8;
    var n := ControlBytes(2 * x.control.capacity);
    Multiple8(2 * x.control.capacity);
    ReallocationIsOk(x.s, x.control.at, n, true, cfg);
    ReallocationStart(x.s, x.control.at, n, true, cfg);
    HeldAfter(x0, x.s.l, t.l, x.control.Tile(), mark);
    if q != x.control.at { NotStaying(x0, x.s.l, mark, q); }
    LayoutOf(t);
    TooBigStrays(x0, t.l, q, n, mark);
    ControlTile(x0, mark);
  }

  lemma LayoutOf(s: State)
    requires s.Inv()
    ensures s.l.Inv()
  {
  }

  lemma ControlTile(x0: Pair, mark: nat)
    requires Ready(x0, mark) && x0.control.Control?
    ensures x0.control.at >= HEADER && x0.control.at - HEADER in x0.s.l.tiles
  {
  }

  lemma FarExtend(x0: Pair, x: Pair, cfg: Config, mark: nat, tail: bool)
    requires Ready(x0, mark) && Far(x0, x, mark, tail) && ControlBytes(2 * x.control.capacity) <= 0xFFFF_FFF8
    requires MetaStep(x, Extend, cfg).Some?
    ensures Far(x0, MetaStep(x, Extend, cfg).value, mark, tail)
  {
    hide State.Inv, Reallocation, Keeps, Ready;
    var n := ControlBytes(2 * x.control.capacity);
    var r := Extension(x.s, x.control, cfg);
    ReallocationIsOk(x.s, x.control.at, n, true, cfg);
    ReallocationStart(x.s, x.control.at, n, true, cfg);
    if r.Block? {
      ExtendedFar(x0, x, cfg, mark, tail, r.p, r.s);
    } else {
      HeldAfter(x0, x.s.l, r.s.l, -1, mark);
      StillLive(x.s.l, r.s.l, -1, x.control.at);
    }
  }

  /** A block past the mark is below the last free one, which the high-water mark has reached. */
  lemma PastMarkRaises(l0: Layout, t: State, mark: nat, q: nat)
    requires Since(l0, true, t, mark) && !t.failed && LiveAt(t.l, q) && q >= mark + HEADER
    requires t.l.tiles[q - HEADER].len > HEADER
    ensures t.hwm > mark + HEADER
  {
    var k := |t.l.free| - 1;
    assert t.l.FreeAt(k) && t.l.TileOk(q - HEADER) && t.l.TileOk(t.l.free[k]);
    assert t.l.Apart(t.l.free[k], q - HEADER) && t.l.Apart(q - HEADER, t.l.free[k]);
  }

  /** What a control block below the mark is like. */
  lemma NearMeans(x0: Pair, x: Pair, mark: nat, tail: bool)
    requires Ready(x0, mark) && Near(x0, x, mark, tail) && x.control.Control?
    ensures x0.control.Control? && Held(x0, x.s.l, mark) && !Stays(x0, mark, x.control.Tile())
    ensures LiveAt(x.s.l, x.control.at)
    ensures x.control.at == x0.control.at < mark && 0 < x.control.capacity
    ensures Recorded(x.s.l.tiles[x.control.at - HEADER]) == ControlBytes(x.control.capacity)
    ensures x0.s.l.tiles[x.control.at - HEADER].len == x.s.l.tiles[x.control.at - HEADER].len
  {
    hide Layout.Tiled, Layout.Listed;
    var b := Rebased(x0.s, x.control);
    forall o | o < mark && o in x0.s.l.tiles && o != x0.control.Tile()
      ensures Live(x.s.l, o)
      && x.s.l.tiles[o] == x0.s.l.tiles[o] {
      assert o in b.l.tiles && b.l.tiles[o] == x0.s.l.tiles[o];
    }
  }

  /** A size that is not in its size class, or is more than its block has, does not fit in it. */
  lemma OutOfPlace(l: Layout, o: nat, n: nat)
    requires l.Inv() && Live(l, o) && n > Recorded(l.tiles[o])
    requires (l.tiles[o].kind.Small? ==> ClassOf(n) != ClassOf(l.tiles[o].kind.size))
    ensures n > l.tiles[o].len - HEADER
  {
    assert l.TileOk(o);
  }

  lemma NearMoves(x0: Pair, x: Pair, cfg: Config, mark: nat, tail: bool)
    requires Ready(x0, mark) && Near(x0, x, mark, tail) && x.s.Inv() && MetaLegal(x0.s.l, x0.control, x, Extend, mark)
    requires MetaStep(x, Extend, cfg).Some? && (tail ==> MetaKeepsTail(x, Extend, cfg))
    requires x.s.l.tiles[x.control.at - HEADER].kind.Small? ==> cfg.bitmaps
    requires NeedsMove(x.s, x.control.at, ControlBytes(2 * x.control.capacity), true, cfg)
    ensures var y := MetaStep(x, Extend, cfg).value; Near(x0, y, mark, tail) || Far(x0, y, mark, tail)
  {
    hide State.Inv, Allocation, Release, Keeps, Ready, Since, TailFree, Held, Align8, CanStay, Marked;
    var n, l0 := ControlBytes(2 * x.control.capacity), Rebased(x0.s, x.control).l;
    Multiple8(2 * x.control.capacity);
    NearMeans(x0, x, mark, tail);
    var a := Allocation(x.s, n, true, cfg, true);
    AllocationSince(l0, tail, x.s, n, true, cfg, mark);
    AllocationIsOk(x.s, n, true, cfg, true);
    assert Reallocation(x.s, x.control.at, n, true, cfg) == Moved(x.s, x.control.at, n, true, cfg);
    if a.Block? {
      LayoutOf(x.s);
      OutOfPlace(x.s.l, x.control.at - HEADER, n);
      StillLive(x.s.l, a.s.l, -1, x.control.at);
      ReleaseStart(a.s, x.control.at);
      if tail {
        NewIsPast(l0, x.s, a.s, mark, a.p);
        PastMarkRaises(l0, a.s, mark, a.p);
      }
      ExtendedFar(x0, x, cfg, mark, tail, a.p, Release(a.s, x.control.at));
    }
  }

  lemma NewIsPast(l0: Layout, s: State, t: State, mark: nat, q: nat)
    requires Since(l0, true, s, mark) && Since(l0, true, t, mark) && LiveAt(t.l, q) && !LiveAt(s.l, q)
    ensures q >= mark + HEADER
  {
    hide Layout.Tiled, Layout.Listed;
  }

  lemma NearExpands(x0: Pair, x: Pair, cfg: Config, mark: nat, tail: bool)
    requires Ready(x0, mark) && Near(x0, x, mark, tail) && x.s.Inv() && MetaLegal(x0.s.l, x0.control, x, Extend, mark)
    requires MetaStep(x, Extend, cfg).Some? && x.s.l.tiles[x.control.at - HEADER].kind.Regular?
    requires CanStay(x.s.l, x.control.at - HEADER, Align8(ControlBytes(2 * x.control.capacity)))
    ensures Far(x0, MetaStep(x, Extend, cfg).value, mark, tail)
  {
    hide State.Inv, ExpandUp, SlideDown, Shrink, Moved, Keeps, Ready, Since, TailFree, Held, Align8, Marked,
      CanExpandUp, CanSlideDown;
    var o, n := x.control.at - HEADER, ControlBytes(2 * x.control.capacity);
    Multiple8(2 * x.control.capacity);
    NearMeans(x0, x, mark, tail);
    TileIsOk(x.s, o);
    FreeIsPast(Rebased(x0.s, x.control).l, tail, x.s, o, n + HEADER - x.s.l.tiles[o].len, mark);
    var r := Extension(x.s, x.control, cfg);
    ExtendedFar(x0, x, cfg, mark, tail, r.p, r.s);
  }

  /** A block below the mark can only grow into free memory from the mark on. */
  lemma FreeIsPast(l0: Layout, tail: bool, s: State, o: nat, more: int, mark: nat)
    requires Since(l0, tail, s, mark) && Live(s.l, o) && o < mark
    ensures more < 0 || !CanSlideDown(s.l, o, more)
    ensures more >= 0 && CanExpandUp(s.l, o, more) ==> s.l.free[Below(s.l.free, o)] >= mark
  {
    var i := Below(s.l.free, o);
    assert i > 0 ==> s.l.FreeAt(i - 1);
    assert i < |s.l.free| ==> s.l.FreeAt(i);
  }

  lemma NearExtends(x0: Pair, x: Pair, cfg: Config, mark: nat, tail: bool)
    requires Ready(x0, mark) && Near(x0, x, mark, tail) && x.s.Inv() && MetaLegal(x0.s.l, x0.control, x, Extend, mark)
    requires MetaStep(x, Extend, cfg).Some? && (tail ==> MetaKeepsTail(x, Extend, cfg))
    requires x.s.l.tiles[x.control.at - HEADER].kind.Small? ==> cfg.bitmaps
    ensures var y := MetaStep(x, Extend, cfg).value; Near(x0, y, mark, tail) || Far(x0, y, mark, tail)
  {
    hide State.Inv, Near, Far, Ready, CanStay, MetaKeepsTail, Align8, MetaStep;
    if NeedsMove(x.s, x.control.at, ControlBytes(2 * x.control.capacity), true, cfg) {
      NearMoves(x0, x, cfg, mark, tail);
    } else if x.s.l.tiles[x.control.at - HEADER].kind.Small? {
      NearInClass(x0, x, cfg, mark, tail);
    } else {
      NearExpands(x0, x, cfg, mark, tail);
    }
  }

  // ---- Runs ----

  /** A new buffer in which small blocks are used only if class lists are. */
  ghost predicate Begins(x0: Pair, cfg: Config, mark: nat) {
    && Ready(x0, mark) && x0.s.l.tiles[mark].len > HEADER
    && (x0.control.Control? && x0.s.l.tiles[x0.control.at - HEADER].kind.Small? ==> cfg.bitmaps)
  }

  lemma SmallStill(x0: Pair, x: Pair, cfg: Config, mark: nat, tail: bool)
    requires Begins(x0, cfg, mark) && Near(x0, x, mark, tail) && x.control.Control? && LiveAt(x.s.l, x.control.at)
    ensures x.s.l.tiles[x.control.at - HEADER].kind.Small? ==> cfg.bitmaps
  {
    hide Layout.Tiled, Layout.Listed;
    assert Fixed(Rebased(x0.s, x.control).l, x.s.l, mark);
  }

  lemma MetaStepKeeps(x0: Pair, x: Pair, op: MetaOp, cfg: Config, mark: nat, tail: bool)
    requires Begins(x0, cfg, mark) && (Near(x0, x, mark, tail) || Far(x0, x, mark, tail)) && x.s.Inv()
    requires MetaLegal(x0.s.l, x0.control, x, op, mark) && MetaStep(x, op, cfg).Some?
    requires (tail ==> MetaKeepsTail(x, op, cfg))
    ensures var y := MetaStep(x, op, cfg).value; Near(x0, y, mark, tail) || Far(x0, y, mark, tail)
  {
    hide State.Inv, Near, Far, Ready, KeepsTail, MoveKeepsTail, Own;
    match op {
      case Plain(o) => if Near(x0, x, mark, tail) { NearPlain(x0, x, o, cfg, mark, tail); }
        else { FarPlain(x0, x, o, cfg, mark, tail); }
      case Extend =>
        if Near(x0, x, mark, tail) {
          SmallStill(x0, x, cfg, mark, tail);
          NearExtends(x0, x, cfg, mark, tail);
        } else {
          FarExtend(x0, x, cfg, mark, tail);
        }
    }
  }

  lemma {:induction false} MetaRunKeeps(x0: Pair, x: Pair, ops: seq<MetaOp>, cfg: Config, mark: nat, tail: bool)
    requires Begins(x0, cfg, mark) && (Near(x0, x, mark, tail) || Far(x0, x, mark, tail)) && x.s.Inv()
    requires MetaRuns(x0.s.l, x0.control, x, ops, cfg, mark, tail)
    ensures var y := MetaRun(x0.s.l, x0.control, x, ops, cfg, mark, tail);
      y.s.Inv() && (Near(x0, y, mark, tail) || Far(x0, y, mark, tail))
    decreases |ops|
  {
    hide State.Inv, Near, Far, Begins, MetaStep, MetaKeepsTail;
    if ops != [] {
      MetaStepKeeps(x0, x, ops[0], cfg, mark, tail);
      MetaRunKeeps(x0, MetaStep(x, ops[0], cfg).value, ops[1..], cfg, mark, tail);
    }
  }

  /**
  After any run in which the control block may grow as well, freeing everything past the mark gives back the
  marked state with the control block of its present size, if that is still wholly below the mark.
  */
  lemma FreeingWithControlRestores(x0: Pair, ops: seq<MetaOp>, cfg: Config, mark: nat, tail: bool)
    requires Begins(x0, cfg, mark) && x0.s.Inv() && MetaRuns(x0.s.l, x0.control, x0, ops, cfg, mark, tail)
    ensures var y := MetaRun(x0.s.l, x0.control, x0, ops, cfg, mark, tail); var b := Rebased(x0.s, y.control);
      !y.control.Strayed(mark) ==>
        && y.control.Control? == x0.control.Control? && (y.control.Control? ==> y.control.at == x0.control.at)
        && mark in y.s.l.tiles && mark + HEADER <= y.s.l.full && Marked(b, mark) && Fixed(b.l, y.s.l, mark)
        && State(ResetLayout(y.s.l, mark), mark + HEADER, false) == Restored(b, mark, y.s.l.full)
  {
    hide Layout.Tiled, Layout.Listed, Rebased;
    NearStarts(x0, mark, tail);
    MetaRunKeeps(x0, x0, ops, cfg, mark, tail);
    var y := MetaRun(x0.s.l, x0.control, x0, ops, cfg, mark, tail);
    if !y.control.Strayed(mark) {
      TileIsOk(y.s, mark);
      ResetGivesRestored(Rebased(x0.s, y.control), y.s.l, mark);
    }
  }

  /**
  If besides no allocation has taken the buffer's end, a free list that starts at the mark and a high-water mark
  just past it say that the control block has not strayed, and that there is nothing to free.
  */
  lemma SkippingWithControlRestores(x0: Pair, ops: seq<MetaOp>, cfg: Config, mark: nat)
    requires Begins(x0, cfg, mark) && x0.s.Inv() && MetaRuns(x0.s.l, x0.control, x0, ops, cfg, mark, true)
    ensures var y := MetaRun(x0.s.l, x0.control, x0, ops, cfg, mark, true);
      LinkAt(y.s.l.free, 0) == mark && y.s.hwm == mark + HEADER ==>
        !y.control.Strayed(mark) && mark <= y.s.l.full && y.s == Restored(Rebased(x0.s, y.control), mark, y.s.l.full)
  {
    hide Layout.Tiled, Layout.Listed, Rebased;
    NearStarts(x0, mark, true);
    MetaRunKeeps(x0, x0, ops, cfg, mark, true);
    var y := MetaRun(x0.s.l, x0.control, x0, ops, cfg, mark, true);
    if LinkAt(y.s.l.free, 0) == mark && y.s.hwm == mark + HEADER {
      var b := Rebased(x0.s, y.control);
      MarkIsPositive(b, mark);
      ControlBelow(x0, y, mark, true);
      IdleIsRestored(b, y.s, mark);
    }
  }

  lemma MarkIsPositive(s: State, mark: nat)
    requires Marked(s, mark)
    ensures 0 < mark
  {
    assert s.l.TileOk(mark);
  }

  lemma IdleIsRestored(b: State, t: State, mark: nat)
    requires Marked(b, mark) && Since(b.l, true, t, mark) && LinkAt(t.l.free, 0) == mark && t.hwm == mark + HEADER
    requires 0 < mark
    ensures mark <= t.l.full && t == Restored(b, mark, t.l.full)
  {
    assert t.l.TileOk(mark);
    assert t.l.FreeAt(0);
    hide Layout.Tiled;
    OneFreeIsRestored(b, t, mark);
  }

  /** A control block below the mark is wholly below it. */
  lemma ControlBelow(x0: Pair, y: Pair, mark: nat, tail: bool)
    requires Ready(x0, mark) && Near(x0, y, mark, tail)
    ensures !y.control.Strayed(mark)
  {
    if y.control.Control? {
      NearMeans(x0, y, mark, tail);
      assert y.s.l.TileOk(y.control.Tile()) && y.s.l.Apart(y.control.Tile(), mark);
    }
  }

  // ---- Without the tail hypothesis ----

  /** If the free block at the mark is the whole rest of the buffer, the control block is wholly below it. */
  lemma FarIsPast(x0: Pair, y: Pair, mark: nat, tail: bool)
    requires Far(x0, y, mark, tail) && LinkAt(y.s.l.free, 0) == mark > 0
    ensures mark in y.s.l.tiles && y.s.l.End(mark) != y.s.l.full
  {
    var o := y.control.Tile();
    assert y.s.l.FreeAt(0);
    assert y.s.l.TileOk(o) && y.s.l.Apart(o, mark) && y.s.l.Apart(mark, o);
  }

  /**
  In any run, the control block growing or not, whose state looks idle: the control block is where it was and there
  is nothing to free exactly if the free block at the mark is the whole rest of the buffer.
  */
  lemma SkippingWithControlIsExact(x0: Pair, ops: seq<MetaOp>, cfg: Config, mark: nat)
    requires Begins(x0, cfg, mark) && x0.s.Inv() && MetaRuns(x0.s.l, x0.control, x0, ops, cfg, mark, false)
    ensures var y := MetaRun(x0.s.l, x0.control, x0, ops, cfg, mark, false);
      LinkAt(y.s.l.free, 0) == mark && y.s.hwm == mark + HEADER ==>
        && mark in y.s.l.tiles && mark <= y.s.l.full
        && (!y.control.Strayed(mark) && y.s == Restored(Rebased(x0.s, y.control), mark, y.s.l.full) <==>
           y.s.l.End(mark) == y.s.l.full)
  {
    hide State.Inv, Rebased, Near, Far, Begins, Restored, MetaRun, MetaRuns, Control.Strayed;
    BeginsNear(x0, cfg, mark, false);
    MetaRunKeeps(x0, x0, ops, cfg, mark, false);
    IdleIsExact(x0, MetaRun(x0.s.l, x0.control, x0, ops, cfg, mark, false), mark);
  }

  lemma BeginsNear(x0: Pair, cfg: Config, mark: nat, tail: bool)
    requires Begins(x0, cfg, mark)
    ensures Near(x0, x0, mark, tail) && Ready(x0, mark) && 0 < mark
  {
    hide Layout.Tiled, Layout.Listed, Near, Ready;
    NearStarts(x0, mark, tail);
    MarkOfReady(x0, mark);
  }

  lemma MarkOfReady(x0: Pair, mark: nat)
    requires Ready(x0, mark)
    ensures 0 < mark
  {
    MarkIsPositive(x0.s, mark);
  }

  lemma IdleIsExact(x0: Pair, y: Pair, mark: nat)
    requires Ready(x0, mark) && 0 < mark && y.s.Inv() && (Near(x0, y, mark, false) || Far(x0, y, mark, false))
    ensures LinkAt(y.s.l.free, 0) == mark && y.s.hwm == mark + HEADER ==>
        && mark in y.s.l.tiles && mark <= y.s.l.full
        && (!y.control.Strayed(mark) && y.s == Restored(Rebased(x0.s, y.control), mark, y.s.l.full) <==>
           y.s.l.End(mark) == y.s.l.full)
  {
    hide State.Inv, Rebased, Near, Far, Ready;
    if LinkAt(y.s.l.free, 0) == mark && y.s.hwm == mark + HEADER {
      FirstFree(y.s, mark);
      if Near(x0, y, mark, false) {
        ControlBelow(x0, y, mark, false);
        if y.s.l.End(mark) == y.s.l.full { NearIsRestored(x0, y, mark); }
      } else {
        FarStrays(x0, y, mark, false);
        FarIsPast(x0, y, mark, false);
      }
    }
  }

  lemma FirstFree(s: State, mark: nat)
    requires s.Inv() && LinkAt(s.l.free, 0) == mark > 0
    ensures s.l.free != [] && s.l.free[0] == mark && mark in s.l.tiles && mark <= s.l.full && !s.failed
  {
    assert s.l.FreeAt(0) && s.l.TileOk(mark);
  }

  lemma NearIsRestored(x0: Pair, y: Pair, mark: nat)
    requires Near(x0, y, mark, false) && y.s.Inv() && y.s.l.free != [] && y.s.l.free[0] == mark && !y.s.failed
    requires mark in y.s.l.tiles && y.s.l.End(mark) == y.s.l.full && y.s.hwm == mark + HEADER
    ensures mark <= y.s.l.full && y.s == Restored(Rebased(x0.s, y.control), mark, y.s.l.full)
  {
    hide Layout.Tiled, Layout.Listed, Rebased;
    HoldsFree(y.s.l);
    OneFreeIsRestored(Rebased(x0.s, y.control), y.s, mark);
  }

  lemma HoldsFree(l: Layout)
    requires l.Inv()
    ensures l.FreeAt(0)
  {
  }

  lemma FarStrays(x0: Pair, y: Pair, mark: nat, tail: bool)
    requires Far(x0, y, mark, tail)
    ensures y.control.Strayed(mark)
  {
  }

  // ---- Again and again ----

  /** The state after a reset is one that a run can start from again. */
  lemma ResetBeginsAgain(x0: Pair, ops: seq<MetaOp>, cfg: Config, mark: nat, tail: bool)
    requires Begins(x0, cfg, mark) && x0.s.Inv() && MetaRuns(x0.s.l, x0.control, x0, ops, cfg, mark, tail)
    ensures var y := MetaRun(x0.s.l, x0.control, x0, ops, cfg, mark, tail);
      !y.control.Strayed(mark) ==>
        && mark <= y.s.l.full && Restored(Rebased(x0.s, y.control), mark, y.s.l.full).Inv()
        && Begins(Pair(Restored(Rebased(x0.s, y.control), mark, y.s.l.full), y.control), cfg, mark)
  {
    hide State.Inv, Near, Far, Rebased, Restored, Begins, MetaRun, MetaRuns, Control.Strayed, Marked, Ready,
      ResetLayout;
    BeginsNear(x0, cfg, mark, tail);
    MetaRunKeeps(x0, x0, ops, cfg, mark, tail);
    FreeingWithControlRestores(x0, ops, cfg, mark, tail);
    var y := MetaRun(x0.s.l, x0.control, x0, ops, cfg, mark, tail);
    if !y.control.Strayed(mark) {
      if Far(x0, y, mark, tail) { FarStrays(x0, y, mark, tail); }
      StartPositive(y.s);
      ResetIsMarked(y.s.l, mark);
      MarkedInv(Restored(Rebased(x0.s, y.control), mark, y.s.l.full), mark);
      NearBegins(x0, y, cfg, mark, tail);
    }
  }

  lemma MarkedInv(s: State, mark: nat)
    requires Marked(s, mark)
    ensures s.Inv()
  {
  }

  lemma StartPositive(s: State)
    requires s.Inv()
    ensures s.l.Inv() && 0 < s.l.start
  {
  }

  lemma NearBegins(x0: Pair, y: Pair, cfg: Config, mark: nat, tail: bool)
    requires Begins(x0, cfg, mark) && Near(x0, y, mark, tail) && mark <= y.s.l.full
    requires Marked(Restored(Rebased(x0.s, y.control), mark, y.s.l.full), mark)
    ensures Begins(Pair(Restored(Rebased(x0.s, y.control), mark, y.s.l.full), y.control), cfg, mark)
  {
    hide Layout.Tiled, Layout.Listed;
  }
}
