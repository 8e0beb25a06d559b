/**
How the abstract heap lies in the buffer's bytes: the size word before each allocated block, overlaid by
the length and link of a free block, and the link in the first bytes of a small block on a class list.
*/
module HeapMemory {
  import opened Bytes
  import opened Layouts
  import opened HeapSpec

  /** No link is being changed. */
  const NONE: int := -2

  /** The low word of the size word of an allocated block. */
  function SizeWord(t: Tile): int {
    if t.kind.Small? then FLAG + t.kind.size else t.len - HEADER
  }

  ghost predicate HeaderOk(m: seq<byte>, l: Layout, o: nat) {
    o in l.tiles ==>
      && o + HEADER <= |m|
      && (l.tiles[o].kind.Free? ==> Get32(m, o) == l.tiles[o].len)
      && (l.tiles[o].kind.Regular? || l.tiles[o].kind.Small?
        ==> Get32(m, o) == SizeWord(l.tiles[o]) && Get32(m, o + 4) == 0)
  }

  /** Free block i leads to the next one; the free list's head leads to the first. */
  ghost predicate LinkOk(m: seq<byte>, head: nat, l: Layout, i: int) {
    -1 <= i < |l.free| ==>
      if i == -1 then head == LinkAt(l.free, 0)
      else l.free[i] + HEADER <= |m| && Get32(m, l.free[i] + 4) == LinkAt(l.free, i + 1)
  }

  ghost predicate IdleLinkOk(m: seq<byte>, heads: seq<nat>, l: Layout, c: nat, j: int) {
    c < CLASSES && c < |heads| && c < |l.idle| && -1 <= j < |l.idle[c]| ==>
      if j == -1 then heads[c] == LinkAt(l.idle[c], 0)
      else l.idle[c][j] + 4 <= |m| && Get32(m, l.idle[c][j]) == LinkAt(l.idle[c], j + 1)
  }

  /** Bytes and list heads hold the layout, but for the link from free block k, or from the head if k is -1. */
  ghost predicate Agrees(m: seq<byte>, head: nat, heads: seq<nat>, l: Layout, k: int) {
    && |m| == l.full < FLAG
    && |heads| == CLASSES
    && (forall o: nat {:trigger HeaderOk(m, l, o)} :: HeaderOk(m, l, o))
    && (forall i: int {:trigger LinkOk(m, head, l, i)} :: i != k ==> LinkOk(m, head, l, i))
    && (forall c: nat, j: int {:trigger IdleLinkOk(m, heads, l, c, j)} :: IdleLinkOk(m, heads, l, c, j))
  }

  /** Only the bytes from lo up to hi may differ. */
  ghost predicate OnlyIn(m: seq<byte>, r: seq<byte>, lo: nat, hi: nat) {
    |r| == |m| && Same(m, r, 0, lo) && Same(m, r, hi, |m|)
  }

  // ---- Moves that change no byte ----

  lemma HoldAgrees(m: seq<byte>, head: nat, heads: seq<nat>, l: Layout, k: int, i: nat)
    requires l.Inv() && Agrees(m, head, heads, l, k) && i < |l.free| && (k == NONE || k == i)
    ensures l.FreeAt(i) && Agrees(m, head, heads, Hold(l, i), i - 1)
  {
    assert l.FreeAt(i);
    var r := Hold(l, i);
    forall o: nat ensures HeaderOk(m, r, o) { assert HeaderOk(m, l, o); }
    forall j: int | j != i - 1 ensures LinkOk(m, head, r, j) {
      if j < i { assert LinkOk(m, head, l, j); } else { assert LinkOk(m, head, l, j + 1); }
    }
    forall c: nat, j: int ensures IdleLinkOk(m, heads, r, c, j) { assert IdleLinkOk(m, heads, l, c, j); }
  }

  lemma CutAgrees(m: seq<byte>, head: nat, heads: seq<nat>, l: Layout, k: int, o: nat, len: nat)
    requires l.Inv() && Agrees(m, head, heads, l, k) && o in l.tiles && l.tiles[o].kind.Lost?
    requires HEADER <= len <= l.tiles[o].len - HEADER
    ensures Agrees(m, head, heads, Cut(l, o, len), k)
  {
    var r := Cut(l, o, len);
    assert l.TileOk(o);
    forall x: nat ensures HeaderOk(m, r, x) { assert HeaderOk(m, l, x); }
    forall j: int | j != k ensures LinkOk(m, head, r, j) { assert LinkOk(m, head, l, j); }
    forall c: nat, j: int ensures IdleLinkOk(m, heads, r, c, j) { assert IdleLinkOk(m, heads, l, c, j); }
  }

  lemma FuseAgrees(m: seq<byte>, head: nat, heads: seq<nat>, l: Layout, k: int, o: nat)
    requires l.Inv() && Agrees(m, head, heads, l, k) && o in l.tiles && l.tiles[o].kind.Lost? && l.End(o) in l.tiles
    ensures Agrees(m, head, heads, Fuse(l, o), k)
  {
    var r := Fuse(l, o);
    forall x: nat ensures HeaderOk(m, r, x) { assert HeaderOk(m, l, x); }
    forall j: int | j != k ensures LinkOk(m, head, r, j) { assert LinkOk(m, head, l, j); }
    forall c: nat, j: int ensures IdleLinkOk(m, heads, r, c, j) { assert IdleLinkOk(m, heads, l, c, j); }
  }

  lemma LoseAgrees(m: seq<byte>, head: nat, heads: seq<nat>, l: Layout, k: int, o: nat)
    requires l.Inv() && Agrees(m, head, heads, l, k) && o in l.tiles
    ensures Agrees(m, head, heads, Mark(l, o, Lost), k)
  {
    var r := Mark(l, o, Lost);
    forall x: nat ensures HeaderOk(m, r, x) { assert HeaderOk(m, l, x); }
    forall j: int | j != k ensures LinkOk(m, head, r, j) { assert LinkOk(m, head, l, j); }
    forall c: nat, j: int ensures IdleLinkOk(m, heads, r, c, j) { assert IdleLinkOk(m, heads, l, c, j); }
  }

  lemma PopIdleAgrees(m: seq<byte>, head: nat, heads: seq<nat>, l: Layout, k: int, c: nat)
    requires l.Inv() && Agrees(m, head, heads, l, k) && c < CLASSES && |l.idle[c]| > 0
    ensures l.IdleAt(c, 0) && Agrees(m, head, heads[c := LinkAt(l.idle[c], 1)], PopIdle(l, c), k)
  {
    assert l.IdleAt(c, 0);
    var r := PopIdle(l, c);
    var hs := heads[c := LinkAt(l.idle[c], 1)];
    forall x: nat ensures HeaderOk(m, r, x) { assert HeaderOk(m, l, x); }
    forall j: int | j != k ensures LinkOk(m, head, r, j) { assert LinkOk(m, head, l, j); }
    forall d: nat, j: int ensures IdleLinkOk(m, hs, r, d, j) {
      assert IdleLinkOk(m, heads, l, d, j) && IdleLinkOk(m, heads, l, d, j + 1);
    }
  }

  // ---- Moves that write ----

  /** What lies outside the bytes written and their tile is read as before. */
  lemma WriteAgrees(m: seq<byte>, r: seq<byte>, head: nat, heads: seq<nat>, l: Layout, k: int, o: nat, lo: nat, hi: nat)
    requires l.Inv() && Agrees(m, head, heads, l, k) && o in l.tiles && o <= lo <= hi <= l.End(o)
    requires OnlyIn(m, r, lo, hi)
    requires l.tiles[o].kind.Lost? || (Live(l, o) && o + HEADER <= lo)
    ensures Agrees(r, head, heads, l, k)
  {
    assert l.TileOk(o);
    forall x: nat ensures HeaderOk(r, l, x) {
      assert HeaderOk(m, l, x) && l.Apart(x, o) && l.Apart(o, x);
      if x in l.tiles { assert l.TileOk(x); }
    }
    forall j: int | j != k ensures LinkOk(r, head, l, j) {
      assert LinkOk(m, head, l, j);
      if 0 <= j < |l.free| {
        assert l.FreeAt(j) && l.TileOk(l.free[j]) && l.Apart(l.free[j], o) && l.Apart(o, l.free[j]);
      }
    }
    forall c: nat, j: int ensures IdleLinkOk(r, heads, l, c, j) {
      assert IdleLinkOk(m, heads, l, c, j);
      if c < CLASSES && 0 <= j < |l.idle[c]| {
        var x := l.idle[c][j] - HEADER;
        assert l.IdleAt(c, j) && l.TileOk(x) && l.Apart(x, o) && l.Apart(o, x);
      }
    }
  }

  /** Writing the length and link of a block makes it free block i, once what leads to it is changed. */
  lemma GiveAgrees(m: seq<byte>, r: seq<byte>, head: nat, heads: seq<nat>, l: Layout, k: int, i: nat, o: nat)
    requires l.Inv() && Agrees(m, head, heads, l, k) && (k == NONE || k == i - 1)
    requires i <= |l.free| && o in l.tiles && l.tiles[o].kind.Lost? && l.TileOk(o)
    requires OnlyIn(m, r, o, o + HEADER) && Get32(r, o) == l.tiles[o].len && Get32(r, o + 4) == LinkAt(l.free, i)
    ensures Agrees(r, head, heads, Give(l, i, o), i - 1)
  {
    hide Layout.Tiled, Layout.Listed, Get32;
    WriteAgrees(m, r, head, heads, l, k, o, o, o + HEADER);
    var g := Give(l, i, o);
    forall x: nat ensures HeaderOk(r, g, x) { assert HeaderOk(r, l, x); }
    forall j: int | j != i - 1 ensures LinkOk(r, head, g, j) {
      if j != i { assert LinkOk(r, head, l, if j < i then j else j - 1); }
    }
    forall c: nat, j: int ensures IdleLinkOk(r, heads, g, c, j) { assert IdleLinkOk(r, heads, l, c, j); }
  }

  /** Writing the link of free block i. */
  lemma LinkAgrees(m: seq<byte>, r: seq<byte>, head: nat, heads: seq<nat>, l: Layout, i: nat)
    requires l.Inv() && Agrees(m, head, heads, l, i) && i < |l.free| && l.free[i] in l.tiles && l.TileOk(l.free[i])
    requires OnlyIn(m, r, l.free[i] + 4, l.free[i] + HEADER) && Get32(r, l.free[i] + 4) == LinkAt(l.free, i + 1)
    ensures Agrees(r, head, heads, l, NONE)
  {
    var o := l.free[i];
    forall x: nat ensures HeaderOk(r, l, x) {
      assert HeaderOk(m, l, x) && l.Apart(x, o) && l.Apart(o, x) && l.FreeAt(i);
      if x in l.tiles { assert l.TileOk(x); }
    }
    forall j: int ensures LinkOk(r, head, l, j) {
      if j != i {
        assert LinkOk(m, head, l, j);
        if 0 <= j < |l.free| {
          assert l.FreeAt(j) && l.TileOk(l.free[j]) && l.Apart(l.free[j], o) && l.Apart(o, l.free[j]);
        }
      }
    }
    forall c: nat, j: int ensures IdleLinkOk(r, heads, l, c, j) {
      assert IdleLinkOk(m, heads, l, c, j);
      if c < CLASSES && 0 <= j < |l.idle[c]| {
        var x := l.idle[c][j] - HEADER;
        assert l.IdleAt(c, j) && l.FreeAt(i) && l.TileOk(x) && l.Apart(x, o) && l.Apart(o, x);
      }
    }
  }

  lemma LinkHeadAgrees(m: seq<byte>, head: nat, heads: seq<nat>, l: Layout)
    requires Agrees(m, head, heads, l, -1)
    ensures Agrees(m, LinkAt(l.free, 0), heads, l, NONE)
  {
    forall j: int ensures LinkOk(m, LinkAt(l.free, 0), l, j) {
      if j != -1 { assert LinkOk(m, head, l, j); }
    }
  }

  /** Writing the size word of a block makes it an allocated one. */
  lemma MarkAgrees(m: seq<byte>, r: seq<byte>, head: nat, heads: seq<nat>, l: Layout, k: int, o: nat, kind: Kind)
    requires l.Inv() && Agrees(m, head, heads, l, k) && o in l.tiles && l.tiles[o].kind.Lost? && l.TileOk(o)
    requires kind.Regular? || kind.Small?
    requires OnlyIn(m, r, o, o + HEADER) && Get32(r, o) == SizeWord(Tile(l.tiles[o].len, kind)) && Get32(r, o + 4) == 0
    ensures Agrees(r, head, heads, Mark(l, o, kind), k)
  {
    WriteAgrees(m, r, head, heads, l, k, o, o, o + HEADER);
    var g := Mark(l, o, kind);
    forall x: nat ensures HeaderOk(r, g, x) { assert HeaderOk(r, l, x); }
    forall j: int | j != k ensures LinkOk(r, head, g, j) { assert LinkOk(r, head, l, j); }
    forall c: nat, j: int ensures IdleLinkOk(r, heads, g, c, j) { assert IdleLinkOk(r, heads, l, c, j); }
  }

  /** Writing the class list's head into a small block puts the block first on the list. */
  lemma PushIdleAgrees(m: seq<byte>, r: seq<byte>, head: nat, heads: seq<nat>, l: Layout, k: int, c: nat, o: nat)
    requires l.Inv() && Agrees(m, head, heads, l, k) && c < CLASSES && o in l.tiles && l.tiles[o].kind.Lost?
    requires l.TileOk(o)
    requires l.tiles[o].len == HEADER + ClassSize(c)
    requires OnlyIn(m, r, o + HEADER, o + HEADER + 4) && Get32(r, o + HEADER) == heads[c]
    ensures Agrees(r, head, heads[c := o + HEADER], PushIdle(l, c, o), k)
  {
    WriteAgrees(m, r, head, heads, l, k, o, o + HEADER, o + HEADER + 4);
    var g := PushIdle(l, c, o);
    var hs := heads[c := o + HEADER];
    assert IdleLinkOk(m, heads, l, c, -1);
    forall x: nat ensures HeaderOk(r, g, x) { assert HeaderOk(r, l, x); }
    forall j: int | j != k ensures LinkOk(r, head, g, j) { assert LinkOk(r, head, l, j); }
    forall d: nat, j: int ensures IdleLinkOk(r, hs, g, d, j) {
      assert IdleLinkOk(r, heads, l, d, j) && IdleLinkOk(r, heads, l, d, j - 1);
    }
  }

  /** A bigger buffer holds the same blocks, with the new bytes on no list. */
  lemma ExtendAgrees(m: seq<byte>, r: seq<byte>, head: nat, heads: seq<nat>, l: Layout, k: int)
    requires l.Inv() && Agrees(m, head, heads, l, k) && |m| + HEADER <= |r| < FLAG && Same(m, r, 0, |m|)
    ensures Agrees(r, head, heads, Extend(l, |r|), k)
  {
    var g := Extend(l, |r|);
    InsideBuffer(l);
    forall x: nat ensures HeaderOk(r, g, x) { assert HeaderOk(m, l, x); }
    forall j: int | j != k ensures LinkOk(r, head, g, j) {
      assert LinkOk(m, head, l, j);
    }
    forall c: nat, j: int ensures IdleLinkOk(r, heads, g, c, j) { assert IdleLinkOk(m, heads, l, c, j); }
  }

  /** Dropping every list. */
  lemma DropAgrees(m: seq<byte>, head: nat, heads: seq<nat>, l: Layout, k: int)
    requires Agrees(m, head, heads, l, k)
    ensures Agrees(m, 0, [0, 0, 0, 0], DropLists(l), NONE)
  {
    forall o: nat ensures HeaderOk(m, DropLists(l), o) { assert HeaderOk(m, l, o); }
  }

  // ---- Contents ----

  /** The allocated blocks of l, but for the one at `but`, have the same contents in both memories. */
  ghost predicate Kept(m: seq<byte>, r: seq<byte>, l: Layout, but: int) {
    forall o: nat {:trigger Live(l, o)} :: Live(l, o) && o != but ==> Same(m, r, o + HEADER, l.End(o))
  }

  /** Writing outside the contents of an allocated block keeps them all. */
  lemma WriteKeeps(m0: seq<byte>, m: seq<byte>, r: seq<byte>, l: Layout, but: int, o: nat, lo: nat, hi: nat)
    requires l.Inv() && Kept(m0, m, l, but) && OnlyIn(m, r, lo, hi) && |m| >= |m0|
    requires o in l.tiles && o <= lo <= hi <= l.End(o) && (!Live(l, o) || o == but || hi <= o + HEADER)
    ensures Kept(m0, r, l, but)
  {
    forall x: nat | Live(l, x) && x != but ensures Same(m0, r, x + HEADER, l.End(x)) {
      assert l.Apart(x, o) && l.Apart(o, x) && l.TileOk(x) && l.TileOk(o);
      assert Same(m0, m, x + HEADER, l.End(x));
    }
  }

  // ---- Joining free blocks in memory ----

  /** Where free block i's link is stored, and that it is inside its own tile. */
  lemma FreeHeader(m: seq<byte>, head: nat, heads: seq<nat>, l: Layout, i: nat)
    requires l.Inv() && Agrees(m, head, heads, l, NONE) && i < |l.free|
    ensures l.FreeAt(i) && l.TileOk(l.free[i]) && l.free[i] + HEADER <= |m|
    ensures Get32(m, l.free[i]) == l.tiles[l.free[i]].len && Get32(m, l.free[i] + 4) == LinkAt(l.free, i + 1)
  {
    assert l.FreeAt(i);
    assert l.TileOk(l.free[i]) && HeaderOk(m, l, l.free[i]) && LinkOk(m, head, l, i);
  }

  /** The link to a free block that was taken off the list and put back where it was needs no change. */
  lemma SettledAgrees(m: seq<byte>, r: seq<byte>, head: nat, heads: seq<nat>, l: Layout, j: Layout, k: int, i: nat)
    requires l.Inv() && Agrees(m, head, heads, l, k) && k != i - 1 && i < |l.free| && |m| == |r|
    requires Same(m, r, 0, l.free[i])
    requires Agrees(r, head, heads, j, i - 1) && i < |j.free| && j.free[i] == l.free[i]
    requires (i > 0 ==> j.free[i - 1] == l.free[i - 1])
    ensures Agrees(r, head, heads, j, NONE)
  {
    assert LinkOk(m, head, l, i - 1);
    if i > 0 { assert l.FreeAt(i - 1) && l.TileOk(l.free[i - 1]) && l.FreeAt(i) && l.Apart(l.free[i - 1], l.free[i]); }
    forall x: int ensures LinkOk(r, head, j, x) { if x != i - 1 { assert LinkOk(r, head, j, x); } }
  }

  /** A free block held with the unlisted tile after it, as one tile. */
  lemma HeldFuseAgrees(m: seq<byte>, head: nat, heads: seq<nat>, l: Layout, k: int, i: nat, o: nat)
    requires l.Inv() && Agrees(m, head, heads, l, k) && (k == NONE || k == i - 1) && JoinsBelow(l, i, o)
    requires o in l.tiles && l.tiles[o].kind.Lost?
    ensures var q := l.free[i - 1]; var g := Fuse(Hold(l, i - 1), q);
      g.Inv() && g.TileOk(q) && g.tiles[q] == Tile(l.tiles[q].len + l.tiles[o].len, Lost) && l.TileOk(q)
      && g.free == l.free[..i - 1] + l.free[i..] && Agrees(m, head, heads, g, i - 2)
  {
    var q := l.free[i - 1];
    assert l.TileOk(q);
    HoldInv(l, i - 1);
    HoldAgrees(m, head, heads, l, k, i - 1);
    FuseInv(Hold(l, i - 1), q);
    FuseAgrees(m, head, heads, Hold(l, i - 1), i - 2, q);
    assert Fuse(Hold(l, i - 1), q).TileOk(q);
  }

  /** The start of an unlisted tile becomes free block i. */
  lemma CutGiveAgrees(m: seq<byte>, r: seq<byte>, head: nat, heads: seq<nat>, g: Layout, i: nat, q: nat, len: nat)
    requires g.Inv() && Agrees(m, head, heads, g, i - 1) && i <= |g.free| && q in g.tiles && g.tiles[q].kind.Lost?
    requires HEADER <= len <= g.tiles[q].len - HEADER && len % 8 == 0
    requires OnlyIn(m, r, q, q + HEADER) && q + HEADER <= |m| && Get32(r, q) == len
    requires Get32(r, q + 4) == LinkAt(g.free, i)
    ensures Agrees(r, head, heads, Give(Cut(g, q, len), i, q), i - 1)
  {
    CutInv(g, q, len);
    CutAgrees(m, head, heads, g, i - 1, q, len);
    assert Cut(g, q, len).TileOk(q);
    GiveAgrees(m, r, head, heads, Cut(g, q, len), i - 1, i, q);
  }

  /** Freeing with no free block above one to join below: the joined block is 8 bytes short. */
  lemma JoinBelowShortAgrees(m: seq<byte>, r: seq<byte>, head: nat, heads: seq<nat>, l: Layout, i: nat, o: nat)
    requires l.Inv() && Agrees(m, head, heads, l, NONE) && JoinsBelow(l, i, o) && i == |l.free|
    requires o in l.tiles && l.tiles[o].kind.Lost? && l.TileOk(o)
    requires var q := l.free[i - 1];
      && OnlyIn(m, r, q, q + HEADER) && q + HEADER <= |m|
      && Get32(r, q) == l.tiles[q].len + l.tiles[o].len - HEADER && Get32(r, q + 4) == 0
    ensures JoinBelowShort(l, i, o).Inv() && Agrees(r, head, heads, JoinBelowShort(l, i, o), NONE)
  {
    hide Layout.Tiled, Layout.Listed, Agrees;
    var q := l.free[i - 1];
    var len := l.tiles[q].len + l.tiles[o].len - HEADER;
    JoinBelowShortInv(l, i, o);
    HeldFuseAgrees(m, head, heads, l, NONE, i, o);
    CutGiveAgrees(m, r, head, heads, Fuse(Hold(l, i - 1), q), i - 1, q, len);
    SettledAgrees(m, r, head, heads, l, JoinBelowShort(l, i, o), NONE, i - 1);
  }

  /** Freeing a block that a free block below takes in. */
  lemma JoinBelowAgrees(m: seq<byte>, r: seq<byte>, head: nat, heads: seq<nat>, l: Layout, k: int, i: nat, o: nat)
    requires l.Inv() && Agrees(m, head, heads, l, k) && (k == NONE || k == i - 1) && JoinsBelow(l, i, o)
    requires o in l.tiles && l.tiles[o].kind.Lost? && l.TileOk(o) && (i < |l.free| ==> o < l.free[i])
    requires var q := l.free[i - 1];
      && OnlyIn(m, r, q, q + HEADER) && q + HEADER <= |m|
      && Get32(r, q) == l.tiles[q].len + l.tiles[o].len && Get32(r, q + 4) == LinkAt(l.free, i)
    ensures JoinBelow(l, i, o).Inv() && Agrees(r, head, heads, JoinBelow(l, i, o), NONE)
  {
    hide Layout.Tiled, Layout.Listed, Agrees;
    var q := l.free[i - 1];
    JoinBelowInv(l, i, o);
    HeldFuseAgrees(m, head, heads, l, k, i, o);
    var g := Fuse(Hold(l, i - 1), q);
    GiveAgrees(m, r, head, heads, g, i - 2, i - 1, q);
    SettledAgrees(m, r, head, heads, l, JoinBelow(l, i, o), k, i - 1);
  }

  /** Taking a free block off the list undoes putting it on. */
  lemma HoldGive(l: Layout, i: nat, o: nat)
    requires i <= |l.free| && o in l.tiles && l.tiles[o].kind.Lost?
    ensures Hold(Give(l, i, o), i) == l
  {
    var g := Give(l, i, o);
    assert g.free[..i] + g.free[i + 1..] == l.free;
    assert Hold(g, i).tiles == l.tiles;
  }

  /** The free block above a tile given to the list is taken in by it, once its length says so. */
  lemma TakeInAboveAgrees(m: seq<byte>, r: seq<byte>, head: nat, heads: seq<nat>, l: Layout, i: nat, o: nat)
    requires l.Inv() && Agrees(m, head, heads, l, NONE) && JoinsAbove(l, i, o) && l.tiles[o].kind.Lost? && l.TileOk(o)
    requires OnlyIn(m, r, o, o + HEADER) && o + HEADER <= |m|
      && Get32(r, o) == l.tiles[o].len + l.tiles[l.free[i]].len && Get32(r, o + 4) == LinkAt(l.free, i + 1)
    ensures TakeInAbove(l, i, o).Inv() && TakeInAbove(l, i, o).TileOk(o)
    ensures Agrees(r, head, heads, Give(TakeInAbove(l, i, o), i, o), i - 1)
  {
    TakeInAboveInv(l, i, o);
    HoldInv(l, i);
    HoldAgrees(m, head, heads, l, NONE, i);
    FuseAgrees(m, head, heads, Hold(l, i), i - 1, o);
    var g := TakeInAbove(l, i, o);
    assert g.TileOk(o);
    assert LinkAt(g.free, i) == LinkAt(l.free, i + 1);
    GiveAgrees(m, r, head, heads, g, i - 1, i, o);
  }
}
