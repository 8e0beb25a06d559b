/**
The abstract state of the heap inside a payload buffer: how its bytes are divided into tiles, the
free list as the sequence of its blocks, and the free list of each small block class.
*/
module Layouts {
  const HEADER: nat := 8
  const CLASSES: nat := 4
  const FLAG: nat := 0x8000_0000

  /**
  What a tile is: a block of the free list, an allocated block taken from it, an allocated small
  block holding the size that was asked for, a small block on the list of its class, or bytes no
  list holds any more.
  */
  datatype Kind = Free | Regular | Small(size: nat) | Idle(cls: nat) | Lost

  datatype Tile = Tile(len: nat, kind: Kind)

  /** The class of an allocation of n bytes, or CLASSES if it is too big for a small block. */
  function ClassOf(n: nat): nat {
    if n <= 16 then 0 else if n <= 32 then 1 else if n <= 64 then 2 else if n <= 128 then 3 else CLASSES
  }

  function ClassSize(c: nat): nat
    requires c < CLASSES
  {
    if c == 0 then 16 else if c == 1 then 32 else if c == 2 then 64 else 128
  }

  /** Rounds up to a multiple of 8 in 32-bit arithmetic. */
  function Align8(n: nat): nat {
    (n + 7) % 0x1_0000_0000 / 8 * 8
  }

  function LinkAt(s: seq<nat>, i: nat): nat {
    if i < |s| then s[i] else 0
  }

  datatype Layout = Layout(start: nat, full: nat, tiles: map<nat, Tile>, free: seq<nat>, idle: seq<seq<nat>>) {

    function End(o: nat): nat
      requires o in tiles
    {
      o + tiles[o].len
    }

    ghost predicate TileOk(o: nat) {
      && o in tiles
      && start <= o && o % 8 == 0
      && HEADER <= tiles[o].len && tiles[o].len % 8 == 0
      && End(o) <= full
      && (End(o) == full || End(o) in tiles)
      && (tiles[o].kind.Small? ==>
        tiles[o].kind.size <= 128
        && tiles[o].len == HEADER + ClassSize(ClassOf(tiles[o].kind.size)))
      && (tiles[o].kind.Idle? ==> tiles[o].kind.cls < CLASSES && tiles[o].len == HEADER + ClassSize(tiles[o].kind.cls))
      && (tiles[o].kind.Free? ==> o in free)
      && (tiles[o].kind.Idle? ==> |idle| == CLASSES && o + HEADER in idle[tiles[o].kind.cls])
    }

    ghost predicate Apart(a: nat, b: nat) {
      a in tiles && b in tiles && a < b ==> End(a) <= b
    }

    /** The tiles cover the buffer from `start` to `full` and do not overlap. */
    ghost predicate Tiled() {
      && start % 8 == 0 && full % 8 == 0 && start <= full
      && (start == full || start in tiles)
      && (forall o {:trigger TileOk(o)} :: o in tiles ==> TileOk(o))
      && (forall a, b {:trigger Apart(a, b)} :: Apart(a, b))
    }

    ghost predicate FreeAt(i: nat) {
      i < |free| ==> free[i] in tiles && tiles[free[i]].kind.Free?
    }

    ghost predicate Ascending() {
      forall i, j {:trigger free[i], free[j]} :: 0 <= i < j < |free| ==> free[i] < free[j]
    }

    ghost predicate IdleAt(c: nat, j: nat) {
      |idle| == CLASSES && (c < CLASSES && j < |idle[c]| ==>
        HEADER <= idle[c][j] && idle[c][j] - HEADER in tiles && tiles[idle[c][j] - HEADER].kind == Idle(c))
    }

    ghost predicate Listed() {
      && |idle| == CLASSES
      && Ascending()
      && (forall i {:trigger FreeAt(i)} :: FreeAt(i))
      && (forall c, j {:trigger IdleAt(c, j)} :: IdleAt(c, j))
      && (forall c, i, j {:trigger idle[c][i], idle[c][j]} ::
        0 <= c < CLASSES && 0 <= i < j < |idle[c]|
        ==> idle[c][i] != idle[c][j])
    }

    /** The partition invariant. */
    ghost predicate Inv() {
      Tiled() && Listed()
    }
  }

  // ---- The moves every operation is made of ----

  /** Takes free block i off the free list. */
  function Hold(l: Layout, i: nat): Layout
    requires i < |l.free| && l.free[i] in l.tiles
  {
    l.(tiles := l.tiles[l.free[i] := l.tiles[l.free[i]].(kind := Lost)], free := l.free[..i] + l.free[i + 1..])
  }

  /** Puts the unlisted tile at o on the free list, as its block i. */
  function Give(l: Layout, i: nat, o: nat): Layout
    requires i <= |l.free| && o in l.tiles
  {
    l.(tiles := l.tiles[o := l.tiles[o].(kind := Free)], free := l.free[..i] + [o] + l.free[i..])
  }

  /** Divides the unlisted tile at o after its first `len` bytes. */
  function Cut(l: Layout, o: nat, len: nat): Layout
    requires o in l.tiles && len <= l.tiles[o].len
  {
    l.(tiles := l.tiles[o := Tile(len, Lost)][o + len := Tile(l.tiles[o].len - len, Lost)])
  }

  /** Joins the unlisted tile at o with the unlisted one that follows it. */
  function Fuse(l: Layout, o: nat): Layout
    requires o in l.tiles && l.End(o) in l.tiles
  {
    l.(tiles := (l.tiles - {l.End(o)})[o := Tile(l.tiles[o].len + l.tiles[l.End(o)].len, Lost)])
  }

  /** Changes what the tile at o is, not to or from a listed kind. */
  function Mark(l: Layout, o: nat, kind: Kind): Layout
    requires o in l.tiles
  {
    l.(tiles := l.tiles[o := l.tiles[o].(kind := kind)])
  }

  /** Takes the first block off the list of class c. */
  function PopIdle(l: Layout, c: nat): Layout
    requires c < |l.idle| && |l.idle[c]| > 0 && HEADER <= l.idle[c][0] && l.idle[c][0] - HEADER in l.tiles
  {
    var o := l.idle[c][0] - HEADER;
    l.(tiles := l.tiles[o := l.tiles[o].(kind := Lost)], idle := l.idle[c := l.idle[c][1..]])
  }

  /** Puts the unlisted tile at o first on the list of class c. */
  function PushIdle(l: Layout, c: nat, o: nat): Layout
    requires c < |l.idle| && o in l.tiles
  {
    l.(tiles := l.tiles[o := l.tiles[o].(kind := Idle(c))], idle := l.idle[c := [o + HEADER] + l.idle[c]])
  }

  /** Adds the bytes from `full` up to `newFull` as an unlisted tile. */
  function Extend(l: Layout, newFull: nat): Layout
    requires l.full < newFull
  {
    l.(full := newFull, tiles := l.tiles[l.full := Tile(newFull - l.full, Lost)])
  }

  lemma HoldTiled(l: Layout, i: nat)
    requires l.Inv() && i < |l.free|
    ensures l.FreeAt(i) && Hold(l, i).Tiled()
  {
    assert l.FreeAt(i);
    var r := Hold(l, i);
    var f := l.free[i];
    forall o | o in r.tiles ensures r.TileOk(o) {
      assert l.TileOk(o);
      if l.tiles[o].kind.Free? && o != f {
        var j :| 0 <= j < |l.free| && l.free[j] == o;
        if j < i { assert r.free[j] == o; } else { assert r.free[j - 1] == o; }
      }
    }
    forall a, b ensures r.Apart(a, b) { assert l.Apart(a, b); }
  }

  lemma HoldInv(l: Layout, i: nat)
    requires l.Inv() && i < |l.free|
    ensures l.FreeAt(i)
    ensures Hold(l, i).Inv()
  {
    hide Layout.Tiled;
    HoldTiled(l, i);
    var r := Hold(l, i);
    forall k: nat ensures r.FreeAt(k) {
      if k < |r.free| {
        assert l.FreeAt(k) && l.FreeAt(k + 1);
        assert r.free[k] == if k < i then l.free[k] else l.free[k + 1];
      }
    }
    forall c: nat, j: nat ensures r.IdleAt(c, j) { assert l.IdleAt(c, j); }
  }

  lemma InsertedAscends(s: seq<nat>, i: nat, o: nat)
    requires i <= |s| && (i > 0 ==> s[i - 1] < o) && (i < |s| ==> o < s[i])
    requires forall a, b :: 0 <= a < b < |s| ==> s[a] < s[b]
    ensures var r := s[..i] + [o] + s[i..];
      && (forall k :: 0 <= k < |r| ==> r[k] == if k < i then s[k] else if k == i then o else s[k - 1])
      && (forall a, b :: 0 <= a < b < |r| ==> r[a] < r[b])
  {
  }

  lemma GiveTiled(l: Layout, i: nat, o: nat)
    requires l.Inv() && i <= |l.free| && o in l.tiles && l.tiles[o].kind.Lost?
    ensures Give(l, i, o).Tiled()
  {
    var r := Give(l, i, o);
    forall x | x in r.tiles ensures r.TileOk(x) {
      assert l.TileOk(x);
      if x == o {
        assert r.free[i] == o;
      } else if l.tiles[x].kind.Free? {
        var j :| 0 <= j < |l.free| && l.free[j] == x;
        if j < i { assert r.free[j] == x; } else { assert r.free[j + 1] == x; }
      }
    }
    forall a, b ensures r.Apart(a, b) { assert l.Apart(a, b); }
  }

  lemma GiveInv(l: Layout, i: nat, o: nat)
    requires l.Inv() && i <= |l.free| && o in l.tiles && l.tiles[o].kind.Lost?
    requires (i > 0 ==> l.free[i - 1] < o) && (i < |l.free| ==> o < l.free[i])
    ensures Give(l, i, o).Inv()
  {
    hide Layout.Tiled;
    var r := Give(l, i, o);
    GiveTiled(l, i, o);
    InsertedAscends(l.free, i, o);
    forall k: nat ensures r.FreeAt(k) {
      if k < |r.free| && k != i { assert l.FreeAt(if k < i then k else k - 1); }
    }
    forall c: nat, j: nat ensures r.IdleAt(c, j) { assert l.IdleAt(c, j); }
  }

  /** What the invariant says of one tile. */
  lemma TileAt(l: Layout, o: nat)
    requires l.Inv() && o in l.tiles
    ensures l.TileOk(o)
  {
  }

  lemma CutTiled(l: Layout, o: nat, len: nat)
    requires l.Inv() && o in l.tiles && l.tiles[o].kind.Lost?
    requires HEADER <= len <= l.tiles[o].len - HEADER && len % 8 == 0
    ensures Cut(l, o, len).Tiled()
    ensures o + len !in l.tiles
  {
    var r := Cut(l, o, len);
    assert l.TileOk(o);
    assert l.Apart(o, o + len);
    forall x | x in r.tiles ensures r.TileOk(x) {
      if x != o + len { assert l.TileOk(x); }
    }
    forall a: nat, b: nat ensures r.Apart(a, b) { CutApart(l, o, len, a, b); }
  }

  lemma CutInv(l: Layout, o: nat, len: nat)
    requires l.Inv() && o in l.tiles && l.tiles[o].kind.Lost?
    requires HEADER <= len <= l.tiles[o].len - HEADER && len % 8 == 0
    ensures Cut(l, o, len).Inv()
    ensures o + len !in l.tiles
  {
    hide Layout.Tiled;
    CutTiled(l, o, len);
    var r := Cut(l, o, len);
    forall k: nat ensures r.FreeAt(k) { assert l.FreeAt(k); }
    forall c: nat, j: nat ensures r.IdleAt(c, j) { assert l.IdleAt(c, j); }
  }

  lemma CutApart(l: Layout, o: nat, len: nat, a: nat, b: nat)
    requires l.Inv() && o in l.tiles && HEADER <= len <= l.tiles[o].len - HEADER && o + len !in l.tiles
    ensures Cut(l, o, len).Apart(a, b)
  {
    assert l.Apart(a, b) && l.Apart(o, b) && l.Apart(a, o) && l.Apart(o, a) && l.TileOk(o);
  }

  lemma FuseInv(l: Layout, o: nat)
    requires l.Inv() && o in l.tiles && l.tiles[o].kind.Lost?
    requires l.End(o) in l.tiles && l.tiles[l.End(o)].kind.Lost?
    ensures Fuse(l, o).Inv()
  {
    FuseTiled(l, o);
    var r := Fuse(l, o);
    forall k: nat ensures r.FreeAt(k) { assert l.FreeAt(k); }
    forall c: nat, j: nat ensures r.IdleAt(c, j) { assert l.IdleAt(c, j); }
  }

  lemma FuseTiled(l: Layout, o: nat)
    requires l.Inv() && o in l.tiles && l.tiles[o].kind.Lost? && l.End(o) in l.tiles
    ensures Fuse(l, o).Tiled()
  {
    var r := Fuse(l, o);
    var e := l.End(o);
    assert l.TileOk(o) && l.TileOk(e);
    forall x | x in r.tiles ensures r.TileOk(x) {
      assert l.TileOk(x) && l.Apart(x, o) && l.Apart(o, x);
    }
    forall a: nat, b: nat ensures r.Apart(a, b) { FuseApart(l, o, a, b); }
  }

  lemma FuseApart(l: Layout, o: nat, a: nat, b: nat)
    requires l.Inv() && o in l.tiles && l.End(o) in l.tiles
    ensures Fuse(l, o).Apart(a, b)
  {
    var e := l.End(o);
    assert l.TileOk(o) && l.TileOk(e) && l.Apart(a, b) && l.Apart(e, b) && l.Apart(o, b) && l.Apart(b, e);
  }

  ghost predicate Unlisted(k: Kind) {
    k.Lost? || k.Regular? || k.Small?
  }

  lemma MarkInv(l: Layout, o: nat, kind: Kind)
    requires l.Inv() && o in l.tiles && Unlisted(l.tiles[o].kind) && Unlisted(kind)
    requires kind.Small? ==> kind.size <= 128 && l.tiles[o].len == HEADER + ClassSize(ClassOf(kind.size))
    ensures Mark(l, o, kind).Inv()
  {
    var r := Mark(l, o, kind);
    forall x | x in r.tiles ensures r.TileOk(x) { assert l.TileOk(x); }
    forall a, b ensures r.Apart(a, b) { assert l.Apart(a, b); }
    forall k: nat ensures r.FreeAt(k) { assert l.FreeAt(k); }
    forall c: nat, j: nat ensures r.IdleAt(c, j) { assert l.IdleAt(c, j); }
  }

  lemma PopIdleInv(l: Layout, c: nat)
    requires l.Inv() && c < CLASSES && |l.idle[c]| > 0
    ensures l.IdleAt(c, 0)
    ensures PopIdle(l, c).Inv()
  {
    assert l.IdleAt(c, 0);
    var r := PopIdle(l, c);
    var o := l.idle[c][0] - HEADER;
    forall x | x in r.tiles ensures r.TileOk(x) {
      assert l.TileOk(x);
      if l.tiles[x].kind == Idle(c) && x != o {
        var j :| 0 <= j < |l.idle[c]| && l.idle[c][j] == x + HEADER;
        assert r.idle[c][j - 1] == x + HEADER;
      }
    }
    forall a, b ensures r.Apart(a, b) { assert l.Apart(a, b); }
    forall k: nat ensures r.FreeAt(k) { assert l.FreeAt(k); }
    forall d: nat, j: nat ensures r.IdleAt(d, j) {
      assert l.IdleAt(d, j) && l.IdleAt(d, j + 1);
      if d == c && j < |r.idle[c]| { assert r.idle[c][j] == l.idle[c][j + 1] != l.idle[c][0]; }
    }
  }

  lemma PushIdleTiled(l: Layout, c: nat, o: nat)
    requires l.Inv() && c < CLASSES && o in l.tiles && l.tiles[o].kind.Lost? && l.tiles[o].len == HEADER + ClassSize(c)
    ensures PushIdle(l, c, o).Tiled()
  {
    var r := PushIdle(l, c, o);
    forall x | x in r.tiles ensures r.TileOk(x) {
      assert l.TileOk(x);
      if x == o {
        assert r.idle[c][0] == o + HEADER;
      } else if l.tiles[x].kind == Idle(c) {
        var j :| 0 <= j < |l.idle[c]| && l.idle[c][j] == x + HEADER;
        assert r.idle[c][j + 1] == x + HEADER;
      }
    }
    forall a, b ensures r.Apart(a, b) { assert l.Apart(a, b); }
  }

  lemma PushIdleInv(l: Layout, c: nat, o: nat)
    requires l.Inv() && c < CLASSES && o in l.tiles && l.tiles[o].kind.Lost? && l.tiles[o].len == HEADER + ClassSize(c)
    ensures PushIdle(l, c, o).Inv()
  {
    hide Layout.Tiled;
    PushIdleTiled(l, c, o);
    var r := PushIdle(l, c, o);
    forall k: nat ensures r.FreeAt(k) { assert l.FreeAt(k); }
    forall d: nat, j: nat ensures r.IdleAt(d, j) {
      assert l.IdleAt(d, j);
      if d == c && j > 0 { assert l.IdleAt(d, j - 1); }
    }
    forall d, i, j | 0 <= d < CLASSES && 0 <= i < j < |r.idle[d]| ensures r.idle[d][i] != r.idle[d][j] {
      if d == c {
        assert l.IdleAt(c, j - 1);
        if i > 0 { assert l.IdleAt(c, i - 1); }
      }
    }
  }

  lemma ExtendInv(l: Layout, newFull: nat)
    requires l.Inv() && l.full + HEADER <= newFull && newFull % 8 == 0
    ensures Extend(l, newFull).Inv()
    ensures l.full !in l.tiles
  {
    var r := Extend(l, newFull);
    assert l.full in l.tiles ==> l.TileOk(l.full);
    forall x | x in r.tiles ensures r.TileOk(x) {
      if x != l.full { assert l.TileOk(x); }
    }
    forall a, b ensures r.Apart(a, b) {
      assert l.Apart(a, b) && (a in l.tiles ==> l.TileOk(a)) && (b in l.tiles ==> l.TileOk(b));
    }
    forall k: nat ensures r.FreeAt(k) { assert l.FreeAt(k); }
    forall c: nat, j: nat ensures r.IdleAt(c, j) { assert l.IdleAt(c, j); }
  }
}
