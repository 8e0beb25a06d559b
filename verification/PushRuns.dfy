/** Runs of pushes onto a vector of numbers: its block is rarely resized. */
module PushRuns {
  import opened Layouts
  import opened HeapSpec
  import opened HeapLaws
  import opened VectorChunks
  import opened PrimitiveVectors

  /** The heap, the vector's block and how often it has been given one or had it resized. */
  datatype Pushed = Pushed(s: State, p: nat, moves: nat)

  ghost predicate Ok(x: Pushed, count: nat, size: nat, cfg: Config) {
    && x.s.Inv() && x.s.l.full < FLAG && cfg.limit < FLAG
    && (x.p != 0 ==> LiveAt(x.s.l, x.p))
    && if x.p == 0 then count == 0 else Span(count, size) <= Recorded0(x.s.l, x.p)
  }

  /** Whether one more element takes a new block, or a larger one. */
  ghost predicate Moves(x: Pushed, count: nat, size: nat) {
    x.p == 0 || (LiveAt(x.s.l, x.p) && Span(count + 1, size) > Usable(x.s.l.tiles[x.p - HEADER]))
  }

  /** After pushing n more elements onto a vector of `count`, or as many as there is space for. */
  ghost function Pushes(x: Pushed, count: nat, n: nat, size: nat, small: bool, cfg: Config): (y: Pushed)
    requires Ok(x, count, size, cfg) && 0 < size <= 8
    decreases n
  {
    hide Ok, Pushing, Moves, State.Inv, Span;
    PushingOk(x, count, size, small, cfg);
    if n == 0 then x
    else
      match Pushing(x.s, x.p, count, size, small, cfg)
      case Block(q, t) =>
        Pushes(Pushed(t, q, x.moves + if Moves(x, count, size) then 1 else 0), count + 1, n - 1, size, small, cfg)
      case _ => x
  }

  lemma PushingOk(x: Pushed, count: nat, size: nat, small: bool, cfg: Config)
    requires Ok(x, count, size, cfg) && 0 < size <= 8
    ensures x.s.Inv() && x.s.l.Inv() && (if x.p == 0 then count == 0 else LiveAt(x.s.l, x.p))
    ensures var r := Pushing(x.s, x.p, count, size, small, cfg);
      r.Block? ==>
        && Ok(Pushed(r.s, r.p, 0), count + 1, size, cfg) && Ok(Pushed(r.s, r.p, x.moves), count + 1, size, cfg)
        && Ok(Pushed(r.s, r.p, x.moves + 1), count + 1, size, cfg) && r.p != 0
        && Outgrown(x.s.l, x.p, r.s.l, r.p, if x.p == 0 then 0 else Usable(x.s.l.tiles[x.p - HEADER]),
          Span(count + 1, size), size)
  {
    hide Layout.Tiled, Layout.Listed, Pushing, PushingSlow, Usable, Outgrown, Recorded0, Span;
    PushGrows(x.s, x.p, count, size, small, cfg);
    PushingKeeps(x.s, x.p, count, size, small, cfg);
    var r := Pushing(x.s, x.p, count, size, small, cfg);
    if r.Block? { OutgrownHolds(x.s.l, x.p, r.s.l, r.p, count, size,
      if x.p == 0 then 0 else Usable(x.s.l.tiles[x.p - HEADER])); }
  }

  lemma OutgrownHolds(l: Layout, p: nat, g: Layout, q: nat, count: nat, size: nat, room: int)
    requires Outgrown(l, p, g, q, room, Span(count + 1, size), size) && (p == 0 ==> count == 0)
    ensures Span(count + 1, size) <= Recorded0(g, q)
  {
  }

  lemma PushingKeeps(s: State, p: nat, count: nat, size: nat, small: bool, cfg: Config)
    requires s.Inv() && (p != 0 ==> LiveAt(s.l, p)) && s.l.full < FLAG && cfg.limit < FLAG && 0 < size <= 8
    requires if p == 0 then count == 0 else Span(count, size) <= Recorded0(s.l, p)
    ensures var r := Pushing(s, p, count, size, small, cfg); r.Block? ==> r.s.Inv() && r.s.l.full < FLAG
  {
    hide Layout.Tiled, Layout.Listed, Allocation, Reallocation, Span;
    var needed := Span(count + 1, size);
    if p != 0 { UsableInside(s.l, p); }
    if p != 0 && needed <= Usable(s.l.tiles[p - HEADER]) {
      UsedMore(s, p, needed, size);
    } else if p == 0 {
      AllocationIsOk(s, 2 * size, small, cfg, true);
      AllocationWithin(s, 2 * size, small, cfg, true);
    } else if needed > Recorded0(s.l, p) {
      SpanOn(count, size);
      var n := Max(needed, Max(2 * Recorded0(s.l, p), 2 * size));
      ReallocationIsOk(s, p, n, small, cfg);
      ReallocationWithin(s, p, n, small, cfg);
    }
  }

  lemma SpanOn(count: nat, size: nat)
    ensures Span(count + 1, size) == Span(count, size) + size
  {
  }

  /** However many elements are pushed, a vector is given blocks at most once more than the number can be halved. */
  lemma PushesMoveRarely(s: State, n: nat, size: nat, small: bool, cfg: Config)
    requires s.Inv() && s.l.full < FLAG && cfg.limit < FLAG && 0 < size <= 8
    ensures Ok(Pushed(s, 0, 0), 0, size, cfg)
    ensures var y := Pushes(Pushed(s, 0, 0), 0, n, size, small, cfg); y.moves > 0 ==> Pow2(y.moves - 1) <= n
  {
    hide Pow2;
    MovesAreFew(Pushed(s, 0, 0), 0, n, size, small, cfg);
  }

  /** Each move has doubled the room, and was made for want of it. */
  ghost predicate Earned(x: Pushed, count: nat, size: nat) {
    if x.p == 0 then x.moves == 0
    else x.moves > 0 && Pow2(x.moves - 1) <= count && Span(Pow2(x.moves), size) <= Recorded0(x.s.l, x.p)
  }

  lemma {:induction false} MovesAreFew(x: Pushed, count: nat, n: nat, size: nat, small: bool, cfg: Config)
    requires Ok(x, count, size, cfg) && 0 < size <= 8 && Earned(x, count, size)
    ensures var y := Pushes(x, count, n, size, small, cfg); y.moves > 0 ==> Pow2(y.moves - 1) <= count + n
    decreases n
  {
    hide Ok, Pushing, Moves, Earned, Pow2, Span, State.Inv;
    PushingOk(x, count, size, small, cfg);
    if n == 0 {
      EarnedMeans(x, count, size);
    } else {
      var r := Pushing(x.s, x.p, count, size, small, cfg);
      if r.Block? {
        var y := Pushed(r.s, r.p, x.moves + if Moves(x, count, size) then 1 else 0);
        EarnedOn(x, y, count, size);
        MovesAreFew(y, count + 1, n - 1, size, small, cfg);
      } else {
        EarnedMeans(x, count, size);
        EarnedBound(x, count, n, size);
      }
    }
  }

  lemma EarnedMeans(x: Pushed, count: nat, size: nat)
    requires Earned(x, count, size)
    ensures x.moves > 0 ==> Pow2(x.moves - 1) <= count
  {
  }

  lemma EarnedBound(x: Pushed, count: nat, n: nat, size: nat)
    requires Earned(x, count, size)
    ensures x.moves > 0 ==> Pow2(x.moves - 1) <= count + n
  {
  }

  lemma EarnedOn(x: Pushed, y: Pushed, count: nat, size: nat)
    requires Earned(x, count, size) && (x.p != 0 ==> LiveAt(x.s.l, x.p)) && y.p != 0 && x.s.l.Inv() && 0 < size
    requires y.moves == x.moves + if Moves(x, count, size) then 1 else 0
    requires x.p == 0 ==> count == 0
    requires Outgrown(x.s.l, x.p, y.s.l, y.p, if x.p == 0 then 0 else Usable(x.s.l.tiles[x.p - HEADER]),
      Span(count + 1, size), size)
    ensures Earned(y, count + 1, size)
  {
    hide Pow2, Layout.Tiled, Layout.Listed, Usable, Recorded0;
    if x.p == 0 {
      FirstPowers(size);
    } else {
      UsableInside(x.s.l, x.p);
      Pow2Step(x.moves);
      if Moves(x, count, size) {
        WantedRoom(Pow2(x.moves), count, size, Recorded0(x.s.l, x.p));
      }
    }
  }

  lemma FirstPowers(size: nat)
    ensures Pow2(0) == 1 && Pow2(1) == 2 && Span(2, size) == 2 * size
  {
  }

  /** A room for k elements that is too small for count + 1 is for no more than count, and twice it for 2 k. */
  lemma WantedRoom(k: nat, count: nat, size: nat, room: nat)
    requires Span(k, size) <= room < Span(count + 1, size)
    ensures k <= count && Span(2 * k, size) <= 2 * room
  {
    if count + 1 <= k { SpanMore(count + 1, k, size); }
  }

  lemma SpanMore(a: nat, b: nat, size: nat)
    requires a <= b
    ensures Span(a, size) <= Span(b, size)
  {
  }
}
