/**
The payload buffer: a heap inside one block of bytes, using offsets into it alone.  The fields are those of
the header at the buffer's start; `mem` is the whole buffer, replaced by a longer one when it grows.
*/
module PayloadBuffers {
  import opened Bytes
  import opened Layouts
  import opened HeapSpec
  import opened HeapMemory
  import opened HeapRuns
  import opened HeapLaws

  const HEADER_SIZE: nat := 40
  const RESIZER_SIZE: nat := 8

  ghost predicate Zeros(m: seq<byte>, lo: nat, hi: nat) {
    hi <= |m| && forall i {:trigger m[i]} :: lo <= i < hi ==> m[i] == 0
  }

  /** The whole block at p, if it is an allocated one, is zero. */
  ghost predicate Cleared(m: seq<byte>, l: Layout, p: nat) {
    LiveAt(l, p) ==> Zeros(m, p, l.End(p - HEADER))
  }

  /** What a method gave: a block's offset or 0, and whether the process goes on. */
  ghost predicate Gives(r: Outcome, p: nat, alive: bool, s: State) {
    match r
    case Block(q, t) => alive && p == q && s == t
    case Null(t) => alive && p == 0 && s == t
    case Aborted => !alive
  }

  class PayloadBuffer {
    const config: Config
    var mem: array<byte>
    var message: nat
    var metadata: nat
    var hwm: nat
    var fullSize: nat
    var freeList: nat
    var bitmaps: seq<nat>
    var failed: bool
    ghost var layout: Layout

    ghost function St(): State
      reads this
    {
      State(layout, hwm, failed)
    }

    /** The buffer holds its layout, but for the link from free block k. */
    ghost predicate ValidBut(k: int)
      reads this, mem
    {
      && mem.Length == fullSize == layout.full
      && St().Inv()
      && layout.start == HEADER_SIZE + (if config.movable then RESIZER_SIZE else 0)
      && config.limit < FLAG
      && Agrees(mem[..], freeList, bitmaps, layout, k)
    }

    ghost predicate Valid()
      reads this, mem
    {
      ValidBut(NONE)
    }

    /** An allocation failed, and no list holds a block any more. */
    predicate NothingLeft()
      reads this
    {
      failed && freeList == 0 && bitmaps == [0, 0, 0, 0]
    }

    // ---- Words and bytes ----

    function Load32(o: nat): word
      requires o + 4 <= mem.Length
      reads this, mem
    {
      Get32(mem[..], o)
    }

    method Store32(o: nat, w: word)
      requires o + 4 <= mem.Length
      modifies mem
      ensures mem[..] == Put32(old(mem[..]), o, w)
    {
      var w1 := w / 0x100;
      var w2 := w1 / 0x100;
      mem[o], mem[o + 1], mem[o + 2], mem[o + 3] := w % 0x100, w1 % 0x100, w2 % 0x100, w2 / 0x100;
    }

    method StoreHeader(o: nat, lo: word, hi: word)
      requires o + HEADER <= mem.Length
      modifies mem
      ensures OnlyIn(old(mem[..]), mem[..], o, o + HEADER)
      ensures Get32(mem[..], o) == lo && Get32(mem[..], o + 4) == hi
    {
      Store32(o, lo);
      Store32(o + 4, hi);
    }

    /** memmove. */
    method MoveBytes(dst: nat, src: nat, k: nat)
      requires dst + k <= mem.Length && src + k <= mem.Length
      modifies mem
      ensures mem[..] == Move(old(mem[..]), dst, src, k)
    {
      forall i | 0 <= i < k {
        mem[dst + i] := mem[src + i];
      }
    }

    /** memcpy. */
    method StoreBytes(o: nat, s: seq<byte>)
      requires o + |s| <= mem.Length
      modifies mem
      ensures OnlyIn(old(mem[..]), mem[..], o, o + |s|) && mem[o..o + |s|] == s
    {
      forall i | 0 <= i < |s| {
        mem[o + i] := s[i];
      }
    }

    /** memset to 0. */
    method ZeroBytes(o: nat, k: nat)
      requires o + k <= mem.Length
      modifies mem
      ensures mem[..] == Zero(old(mem[..]), o, k)
    {
      forall i | 0 <= i < k {
        mem[o + i] := 0;
      }
    }

    // ---- A new buffer ----

    constructor (size: nat, config: Config)
      requires HEADER_SIZE + (if config.movable then RESIZER_SIZE else 0) + HEADER <= size < FLAG && size % 8 == 0
      requires config.limit < FLAG
      ensures Valid() && fresh(mem) && this.config == config
      ensures St() == Fresh(HEADER_SIZE + (if config.movable then RESIZER_SIZE else 0), size)
      ensures message == 0 && metadata == 0
    {
      this.config := config;
      mem := new byte[size];
      message, metadata, failed := 0, 0, false;
      fullSize := size;
      freeList := HEADER_SIZE + (if config.movable then RESIZER_SIZE else 0);
      hwm := HEADER_SIZE + (if config.movable then RESIZER_SIZE else 0);
      bitmaps := [0, 0, 0, 0];
      layout := Fresh(HEADER_SIZE + (if config.movable then RESIZER_SIZE else 0), size).l;
      new;
      FreshInv(freeList, size);
      StoreHeader(freeList, fullSize - freeList, 0);
      forall o: nat ensures HeaderOk(mem[..], layout, o) { }
      forall i: int ensures LinkOk(mem[..], freeList, layout, i) { }
    }

    /** A buffer whose first bytes, header fields among them, are copied from an image. */
    constructor FromImage(bytes: seq<byte>, size: nat, config: Config, message: nat, metadata: nat, hwm: nat,
          fullSize: nat,
        freeList: nat, bitmaps: seq<nat>, ghost layout: Layout)
      requires |bytes| <= size
      ensures fresh(mem) && mem.Length == size && mem[..|bytes|] == bytes && !failed
      ensures this.config == config && this.message == message && this.metadata == metadata && this.hwm == hwm
      ensures this.fullSize == fullSize && this.freeList == freeList && this.bitmaps == bitmaps && this.layout == layout
    {
      this.config := config;
      this.message, this.metadata, this.hwm, this.fullSize := message, metadata, hwm, fullSize;
      this.freeList, this.bitmaps, this.failed, this.layout := freeList, bitmaps, false, layout;
      mem := new byte[size];
      new;
      forall i | 0 <= i < |bytes| {
        mem[i] := bytes[i];
      }
    }

    // ---- Taking from the free list ----

    /** Makes free block i - 1, or the head of the list if i is 0, lead to free block i. */
    method LinkTo(prev: nat, next: nat, ghost i: int)
      requires -1 <= i < |layout.free| && ValidBut(i)
      requires prev == (if i == -1 then 0 else layout.free[i]) && next == LinkAt(layout.free, i + 1)
      modifies this`freeList, mem
      ensures Valid()
      ensures i == -1 ==> mem[..] == old(mem[..])
      ensures i >= 0 ==> prev + HEADER <= mem.Length && OnlyIn(old(mem[..]), mem[..], prev + 4, prev + HEADER)
    {
      if prev == 0 {
        if i >= 0 { FreeInside(layout, i); }
        freeList := next;
        LinkHeadAgrees(mem[..], old(freeList), bitmaps, layout);
      } else {
        FreeInside(layout, i);
        NextInside(layout, i + 1);
        Store32(prev + 4, next);
        LinkAgrees(old(mem[..]), mem[..], freeList, bitmaps, layout, i);
      }
    }

    method UpdateHwm(off: nat)
      modifies this`hwm
      ensures hwm == Max(old(hwm), off)
    {
      if off > hwm {
        hwm := off;
      }
    }

    /** Leaves the rest of a free block past its first `length` bytes on the list and raises the mark. */
    method TakePart(block: nat, length: nat, prev: nat, raise: nat, ghost i: nat)
      requires Valid() && i < |layout.free| && block == layout.free[i] && layout.FreeAt(i)
      requires prev == (if i == 0 then 0 else layout.free[i - 1])
      requires HEADER <= length <= layout.tiles[block].len - HEADER && length % 8 == 0
      modifies this`freeList, this`hwm, this`layout, mem
      ensures Valid() && layout == Rest(Hold(old(layout), i), i, block, length)
      ensures hwm == Max(old(hwm), raise)
      ensures Kept(old(mem[..]), mem[..], old(layout), -1)
    {
      hide Layout.Tiled, Layout.Listed, Agrees, Kept, Get32, Put32, Same;
      ghost var l, m := layout, mem[..];
      BelowFlag(m, freeList, bitmaps, l, NONE);
      FreeHeader(m, freeList, bitmaps, l, i);
      var next := block + length;
      StoreHeader(next, Load32(block) - length, Load32(block + 4));
      RestAgrees(m, mem[..], freeList, bitmaps, l, i, length);
      ghost var m1 := mem[..];
      UpdateHwm(raise);
      layout := Rest(Hold(l, i), i, block, length);
      LinkTo(prev, next, i - 1);
      PrevKeeps(m, m1, mem[..], l, i);
    }

    /** Takes a whole free block off the list. */
    method TakeWhole(block: nat, prev: nat, ghost i: nat)
      requires Valid() && i < |layout.free| && block == layout.free[i] && layout.FreeAt(i)
      requires prev == (if i == 0 then 0 else layout.free[i - 1])
      modifies this`freeList, this`hwm, this`layout, mem
      ensures Valid() && layout == Hold(old(layout), i)
      ensures hwm == Max(old(hwm), LinkAt(old(layout).free, i + 1) + HEADER)
      ensures Kept(old(mem[..]), mem[..], old(layout), -1)
    {
      hide Layout.Tiled, Layout.Listed, Agrees;
      ghost var l, m := layout, mem[..];
      FreeHeader(m, freeList, bitmaps, l, i);
      HoldInv(l, i);
      HoldAgrees(m, freeList, bitmaps, l, NONE, i);
      var next := Load32(block + 4);
      UpdateHwm(next + HEADER);
      layout := Hold(l, i);
      LinkTo(prev, next, i - 1);
      PrevKeeps(m, m, mem[..], l, i);
    }

    /** Takes `length` bytes off the start of a free block, or all of it if less than a header would be left. */
    method TakeStartOfFreeBlock(block: nat, numBytes: nat, length: nat, prev: nat, ghost i: nat) returns (n: nat)
      requires Valid() && i < |layout.free| && block == layout.free[i] && layout.FreeAt(i)
      requires prev == (if i == 0 then 0 else layout.free[i - 1])
      requires HEADER <= length <= layout.tiles[block].len && length % 8 == 0
      modifies this`freeList, this`hwm, this`layout, mem
      ensures Valid() && layout == Rest(Hold(old(layout), i), i, block, length)
      ensures hwm == TakeHwm(old(layout), i, length, old(hwm), false)
      ensures n == if old(layout).tiles[block].len - length >= HEADER
          then numBytes else old(layout).tiles[block].len - HEADER
      ensures Kept(old(mem[..]), mem[..], old(layout), -1)
    {
      FreeHeader(mem[..], freeList, bitmaps, layout, i);
      hide Layout.Tiled, Layout.Listed, Agrees, Kept;
      var rem := Load32(block) - length;
      if rem >= HEADER {
        TakePart(block, length, prev, if block + length + HEADER < fullSize then block + length + HEADER else 0, i);
        n := numBytes;
      } else {
        n := Load32(block) - HEADER;
        TakeWhole(block, prev, i);
      }
    }

    /** Writes the size word of an unlisted tile, making it an allocated block. */
    method WriteSize(o: nat, lo: word, ghost kind: Kind)
      requires Valid() && o in layout.tiles && layout.tiles[o].kind.Lost? && (kind.Regular? || kind.Small?)
      requires kind.Small? ==> kind.size <= 128 && layout.tiles[o].len == HEADER + ClassSize(ClassOf(kind.size))
      requires lo == SizeWord(Tile(layout.tiles[o].len, kind))
      modifies this`layout, mem
      ensures Valid() && layout == Mark(old(layout), o, kind)
      ensures OnlyIn(old(mem[..]), mem[..], o, o + HEADER)
    {
      ghost var m := mem[..];
      assert layout.TileOk(o);
      MarkInv(layout, o, kind);
      StoreHeader(o, lo, 0);
      MarkAgrees(m, mem[..], freeList, bitmaps, layout, NONE, o, kind);
      layout := Mark(layout, o, kind);
    }

    /** memset to 0 of bytes of an allocated block. */
    method ZeroIn(o: nat, from: nat, k: nat)
      requires Valid() && Live(layout, o) && o + HEADER <= from && from + k <= layout.End(o)
      modifies mem
      ensures Valid() && OnlyIn(old(mem[..]), mem[..], from, from + k) && Zeros(mem[..], from, from + k)
    {
      assert layout.TileOk(o);
      ZeroBytes(from, k);
      WriteAgrees(old(mem[..]), mem[..], freeList, bitmaps, layout, NONE, o, from, from + k);
    }

    /** Makes the unlisted tile at o, which `l` had free or on a class list, an allocated block. */
    method Finish(o: nat, size: nat, lo: word, clear: bool, ghost kind: Kind, ghost m: seq<byte>, ghost l: Layout)
      requires Valid() && o in layout.tiles && layout.tiles[o] == Tile(size + HEADER, Lost)
      requires (kind.Regular? || kind.Small?)
      requires kind.Small? ==> kind.size <= 128 && size == ClassSize(ClassOf(kind.size))
      requires lo == SizeWord(Tile(size + HEADER, kind))
      requires l.Inv() && Kept(m, mem[..], l, -1) && |m| == l.full == layout.full && o in l.tiles && !Live(l, o)
      requires o + size + HEADER <= l.End(o)
      modifies this`layout, mem
      ensures Valid() && layout == Mark(old(layout), o, kind)
      ensures Kept(m, mem[..], l, -1)
      ensures clear ==> Zeros(mem[..], o + HEADER, o + HEADER + size)
    {
      ghost var m1 := mem[..];
      WriteSize(o, lo, kind);
      WriteKeeps(m, m1, mem[..], l, -1, o, o, o + HEADER);
      if clear {
        ghost var m2 := mem[..];
        ZeroIn(o, o + HEADER, size);
        WriteKeeps(m, m2, mem[..], l, -1, o, o + HEADER, o + HEADER + size);
      }
    }

    /** Takes the first block off the list of class c. */
    method PopSmall(c: nat, n: nat, clear: bool) returns (p: nat)
      requires Valid() && !failed && c == ClassOf(n) < CLASSES && |layout.idle[c]| > 0
      modifies this`bitmaps, this`layout, mem
      ensures Valid() && AllocateSmall(old(St()), n, config) == Block(p, St())
      ensures Kept(old(mem[..]), mem[..], old(layout), -1)
      ensures LiveAt(layout, p) && (clear ==> Cleared(mem[..], layout, p))
    {
      ghost var l, m := layout, mem[..];
      IdleHeads(m, freeList, bitmaps, l, c);
      PopIdleInv(l, c);
      PopIdleAgrees(m, freeList, bitmaps, l, NONE, c);
      p := bitmaps[c];
      assert l.TileOk(p - HEADER);
      bitmaps := bitmaps[c := Load32(p)];
      layout := PopIdle(l, c);
      hide Layout.Tiled, Layout.Listed, Agrees;
      Finish(p - HEADER, ClassSize(c), FLAG + n, clear, Small(n), m, l);
    }

    /** Carves a block from the start of the first free block, which has room for it and a header after it. */
    method CarveFrom(first: nat, size: nat, lo: word, clear: bool, ghost kind: Kind) returns (p: nat)
      requires Valid() && !failed && size % 8 == 0 && (kind.Regular? || kind.Small?)
      requires kind.Small? ==> kind.size <= 128 && size == ClassSize(ClassOf(kind.size))
      requires lo == SizeWord(Tile(size + HEADER, kind))
      requires FirstHolds(layout, size) && first == layout.free[0]
      modifies this`freeList, this`hwm, this`layout, mem
      ensures Valid() && Kept(old(mem[..]), mem[..], old(layout), -1)
      ensures Carve(old(St()), size, kind, config, true) == Block(p, St()) && LiveAt(layout, p)
      ensures clear ==> Cleared(mem[..], layout, p)
    {
      hide Layout.Tiled, Layout.Listed, Agrees, Kept, Zeros;
      ghost var l, m := layout, mem[..];
      FirstIsFit(St(), size);
      TakeInv(l, 0, size + HEADER, kind);
      TakePart(first, size + HEADER, 0, first + size + HEADER + HEADER, 0);
      p := first + HEADER;
      Finish(first, size, lo, clear, kind, m, l);
    }

    /** Carves a block from the start of the first free block, if a header can be left after it. */
    method CarveFirst(size: nat, lo: word, clear: bool, ghost kind: Kind) returns (p: nat)
      requires Valid() && size % 8 == 0 && (kind.Regular? || kind.Small?)
      requires kind.Small? ==> kind.size <= 128 && size == ClassSize(ClassOf(kind.size))
      requires lo == SizeWord(Tile(size + HEADER, kind))
      modifies this`freeList, this`hwm, this`layout, mem
      ensures Valid() && Kept(old(mem[..]), mem[..], old(layout), -1)
      ensures p != 0 <==> FirstHolds(old(layout), size)
      ensures p == 0 ==> St() == old(St()) && mem[..] == old(mem[..])
      ensures p != 0 ==> !old(failed) && Carve(old(St()), size, kind, config, true) == Block(p, St())
      ensures p != 0 ==> LiveAt(layout, p)
      ensures p != 0 && clear ==> Cleared(mem[..], layout, p)
    {
      FreeHead(mem[..], freeList, bitmaps, layout);
      var first := freeList;
      if first == 0 || first > fullSize - HEADER {
        if first != 0 { FreeInside(layout, 0); }
        return 0;
      }
      FreeHeader(mem[..], freeList, bitmaps, layout, 0);
      if Load32(first) < size + HEADER + HEADER {
        return 0;
      }
      FirstIsFit(St(), size);
      hide Layout.Tiled, Layout.Listed, Agrees, Carve, Kept;
      p := CarveFrom(first, size, lo, clear, kind);
    }

    /** The inline cases: a block of the class list, or the start of the first free block.  0 if neither serves. */
    method TryAllocateInPlace(n: word, clear: bool, small: bool) returns (p: nat)
      requires Valid()
      modifies this`freeList, this`hwm, this`bitmaps, this`layout, mem
      ensures Valid() && Kept(old(mem[..]), mem[..], old(layout), -1)
      ensures p != 0 <==> InlineFits(old(St()), n, small, config)
      ensures p == 0 ==> St() == old(St()) && mem[..] == old(mem[..])
      ensures p != 0 ==> Allocation(old(St()), n, small, config, true) == Block(p, St()) && LiveAt(layout, p)
      ensures p != 0 && clear ==> Cleared(mem[..], layout, p)
    {
      if n == 0 || n > fullSize {
        return 0;
      }
      var c := if small && config.bitmaps then ClassOf(n) else CLASSES;
      if c < CLASSES {
        IdleHeads(mem[..], freeList, bitmaps, layout, c);
        if bitmaps[c] != 0 {
          NotFailed(St(), c);
          AllocationIsOk(St(), n, small, config, true);
          hide Layout.Tiled, Layout.Listed, Agrees, Kept;
          p := PopSmall(c, n, clear);
          return;
        }
      }
      SmallMisses(St(), n, small, config, c);
      var size := if c < CLASSES then ClassSize(c) else Align8(n);
      hide Layout.Tiled, Layout.Listed, Agrees, Kept, Carve;
      if c < CLASSES {
        p := CarveFirst(size, FLAG + n, clear, Small(n));
      } else {
        p := CarveFirst(size, size, clear, Regular);
      }
    }

    // ---- Growing ----

    /** The resizer: more bytes, the first of them those the buffer had. */
    method CallResizer(newSize: nat)
      requires mem.Length == fullSize < newSize
      modifies this`mem, this`fullSize
      ensures fresh(mem) && mem.Length == fullSize == newSize
      ensures Same(old(mem[..]), mem[..], 0, old(fullSize))
    {
      var bigger := new byte[newSize];
      forall i | 0 <= i < mem.Length {
        bigger[i] := mem[i];
      }
      mem := bigger;
      fullSize := newSize;
    }

    /** The last block of the free list, or 0. */
    method LastFree() returns (prev: nat)
      requires Valid()
      ensures prev == if layout.free == [] then 0 else layout.free[|layout.free| - 1]
    {
      FreeHead(mem[..], freeList, bitmaps, layout);
      prev := 0;
      var block := freeList;
      ghost var i := 0;
      while block != 0
        invariant i <= |layout.free| && block == LinkAt(layout.free, i)
        invariant block == 0 <==> i == |layout.free|
        invariant prev == if i == 0 then 0 else layout.free[i - 1]
        decreases |layout.free| - i
      {
        FreeHeader(mem[..], freeList, bitmaps, layout, i);
        prev := block;
        block := Load32(block + 4);
        i := i + 1;
        if i < |layout.free| { FreeInside(layout, i); }
      }
    }

    /** Has the resizer make room for `need` bytes and puts the new bytes on the free list. */
    method GrowBuffer(need: nat) returns (alive: bool)
      requires Valid() && !failed && FirstFit(layout, need, 0) == |layout.free|
      modifies this`mem, this`fullSize, this`freeList, this`layout, mem
      ensures alive <==> Doubled(2 * old(layout).full, need) <= config.limit
      ensures exists f: nat {:trigger LeastDoubled(old(fullSize), need, f)} ::
        LeastDoubled(old(fullSize), need, f) && (if alive then fullSize == f else f > config.limit)
      ensures alive ==> Valid() && fresh(mem) && layout == Grow(old(layout), Doubled(2 * old(layout).full, need))
      ensures alive ==> Kept(old(mem[..]), mem[..], old(layout), -1)
    {
      ghost var l, m := layout, mem[..];
      var oldSize := fullSize;
      var newSize := oldSize * 2;
      while newSize < need
        invariant newSize > 0 && Doubled(newSize, need) == Doubled(2 * oldSize, need)
        decreases need - newSize
      {
        newSize := newSize * 2;
      }
      GrowsLeast(oldSize, need);
      if newSize > config.limit {
        return false;
      }
      alive := true;
      GrowthsDecrease(l, need, newSize);
      ExtendInv(l, newSize);
      CallResizer(newSize);
      layout := Extend(l, newSize);
      ExtendAgrees(m, mem[..], freeList, bitmaps, l, NONE);
      KeptInside(m, mem[..], l);
      AddNewMemory(oldSize, newSize, m, l);
    }

    /** Joins the bytes the resizer added to the last free block, which they follow. */
    method LengthenLast(prev: nat, oldSize: nat, newSize: nat, ghost m: seq<byte>, ghost l: Layout)
      requires Valid() && !failed && l.Inv() && l.full + HEADER <= newSize == fullSize && newSize % 8 == 0
      requires l.full == oldSize
      requires layout == Extend(l, newSize) && Kept(m, mem[..], l, -1) && |m| == l.full
      requires JoinsBelow(layout, |l.free|, l.full) && prev == l.free[|l.free| - 1]
      modifies this`layout, mem
      ensures Valid() && layout == Grow(l, newSize) && Kept(m, mem[..], l, -1)
    {
      ghost var k, e, m1 := |l.free|, layout, mem[..];
      FreeHeader(m1, freeList, bitmaps, e, k - 1);
      Store32(prev, Load32(prev) + (newSize - oldSize));
      assert e.TileOk(oldSize);
      JoinBelowAgrees(m1, mem[..], freeList, bitmaps, e, NONE, k, oldSize);
      TileKeeps(m, m1, mem[..], l, k - 1);
      layout := Grow(l, newSize);
    }

    /** Makes the bytes the resizer added a free block of their own. */
    method AppendFree(prev: nat, oldSize: nat, newSize: nat, ghost m: seq<byte>, ghost l: Layout)
      requires Valid() && !failed && l.Inv() && l.full + HEADER <= newSize == fullSize && newSize % 8 == 0
      requires l.full == oldSize
      requires layout == Extend(l, newSize) && Kept(m, mem[..], l, -1) && |m| == l.full
      requires !JoinsBelow(layout, |l.free|, l.full) && prev == (if l.free == [] then 0 else l.free[|l.free| - 1])
      modifies this`freeList, this`layout, mem
      ensures Valid() && layout == Grow(l, newSize) && Kept(m, mem[..], l, -1)
    {
      ghost var k, e, m1 := |l.free|, layout, mem[..];
      GrowInv(l, newSize);
      assert e.TileOk(oldSize);
      StoreHeader(oldSize, newSize - oldSize, 0);
      GiveAgrees(m1, mem[..], freeList, bitmaps, e, NONE, k, oldSize);
      ghost var m2 := mem[..];
      KeptPast(m, m1, m2, l);
      layout := Give(e, k, oldSize);
      hide Layout.Tiled, Layout.Listed, Agrees, Kept;
      LinkTo(prev, oldSize, k - 1);
      LastKeeps(m, m2, mem[..], l, k);
    }

    /** Puts the bytes the resizer added on the free list. */
    method AddNewMemory(oldSize: nat, newSize: nat, ghost m: seq<byte>, ghost l: Layout)
      requires Valid() && !failed && l.Inv() && l.full + HEADER <= newSize == fullSize && newSize % 8 == 0
      requires l.full == oldSize
      requires layout == Extend(l, newSize) && Kept(m, mem[..], l, -1) && |m| == l.full
      modifies this`freeList, this`layout, mem
      ensures Valid() && layout == Grow(l, newSize) && Kept(m, mem[..], l, -1)
    {
      var prev := LastFree();
      if prev != 0 {
        FreeHeader(mem[..], freeList, bitmaps, layout, |l.free| - 1);
        if prev + Load32(prev) == oldSize {
          hide Layout.Tiled, Layout.Listed, Agrees, Kept;
          LengthenLast(prev, oldSize, newSize, m, l);
          return;
        }
      }
      LastIs(layout);
      hide Layout.Tiled, Layout.Listed, Agrees, Kept;
      AppendFree(prev, oldSize, newSize, m, l);
    }

    // ---- Allocating ----

    /** Records that an allocation failed and empties the lists, so that later ones fail too. */
    method MarkAllocationFailed()
      requires Valid()
      modifies this`failed, this`freeList, this`bitmaps, this`layout
      ensures Valid() && St() == Fail(old(St()))
    {
      FailInv(St());
      DropAgrees(mem[..], freeList, bitmaps, layout, NONE);
      failed := true;
      freeList := 0;
      bitmaps := [0, 0, 0, 0];
      layout := DropLists(layout);
    }

    /** The first free block with `need` bytes and the one before it; 0 if there is none. */
    method FindFit(need: nat) returns (block: nat, prev: nat, ghost i: nat)
      requires Valid()
      ensures i == FirstFit(layout, need, 0) <= |layout.free|
      ensures block == LinkAt(layout.free, i) && (block == 0 <==> i == |layout.free|)
      ensures prev == if i == 0 then 0 else layout.free[i - 1]
    {
      FreeHead(mem[..], freeList, bitmaps, layout);
      block, prev, i := freeList, 0, 0;
      while block != 0
        invariant i <= |layout.free| && block == LinkAt(layout.free, i) && (block == 0 <==> i == |layout.free|)
        invariant prev == if i == 0 then 0 else layout.free[i - 1]
        invariant FirstFit(layout, need, 0) == FirstFit(layout, need, i)
        decreases |layout.free| - i
      {
        FreeHeader(mem[..], freeList, bitmaps, layout, i);
        if Load32(block) >= need {
          return;
        }
        prev := block;
        block := Load32(block + 4);
        i := i + 1;
        if i < |layout.free| { FreeInside(layout, i); }
      }
    }

    /** Allocates from free block i, the first that fits. */
    method TakeFit(block: nat, size: nat, prev: nat, clear: bool, ghost i: nat) returns (p: nat)
      requires Valid() && !failed && size % 8 == 0 && i == FirstFit(layout, size + HEADER, 0) < |layout.free|
      requires block == layout.free[i] && prev == (if i == 0 then 0 else layout.free[i - 1])
      modifies this`freeList, this`hwm, this`layout, mem
      ensures Valid() && Kept(old(mem[..]), mem[..], old(layout), -1)
      ensures Carve(old(St()), size, Regular, config, false) == Block(p, St()) && LiveAt(layout, p)
      ensures clear ==> Cleared(mem[..], layout, p)
    {
      hide Layout.Tiled, Layout.Listed, Agrees, Kept, Carve;
      ghost var l, m := layout, mem[..];
      BelowFlag(m, freeList, bitmaps, l, NONE);
      TakeInv(l, i, size + HEADER, Regular);
      TakenSize(St(), i, size, config);
      var n := TakeStartOfFreeBlock(block, size, size + HEADER, prev, i);
      p := block + HEADER;
      Finish(block, size, n, clear, Regular, m, l);
    }

    /** Allocates n bytes by first fit, growing the buffer if nothing fits.  0 if there is no memory. */
    method AllocateSlow(n: word, clear: bool, small: bool) returns (p: nat, alive: bool)
      requires Valid()
      modifies this, mem
      ensures Gives(Allocation(old(St()), n, small, config, false), p, alive, St())
      ensures alive ==> Valid() && (mem == old(mem) || fresh(mem)) && Kept(old(mem[..]), mem[..], old(layout), -1)
      ensures alive && p != 0 && clear ==> Cleared(mem[..], layout, p)
      ensures alive && p == 0 && n > 0 && !config.movable ==> NothingLeft()
      ensures alive && p == 0 && n > 0 && config.movable && !old(failed) ==> n > 0xFFFF_FFF8
      ensures message == old(message) && metadata == old(metadata)
      decreases if small then 1 else 0, Growths(layout, Align8(n) + HEADER), 2
    {
      hide Layout.Tiled, Layout.Listed, Agrees, Kept, Cleared, Align8, Allocation, AllocateSmall, Carve, Gives;
      ghost var s := St();
      if n == 0 || failed {
        KeptSame(mem[..], layout);
        NotAllocated(s, n, small, config, false);
        p, alive := 0, true;
      } else if small && config.bitmaps && ClassOf(n) < CLASSES {
        AllocatedSmall(s, n, small, config, false);
        p, alive := AllocateSmallBlock(n, ClassOf(n), clear);
      } else {
        p, alive := AllocateRegular(n, clear, small);
      }
      if alive && p == 0 && n > 0 { GaveNothing(mem[..], freeList, bitmaps, s, n, small, config, false, St()); }
    }

    /** Allocates n bytes as a block of its own, by first fit. */
    method AllocateRegular(n: word, clear: bool, small: bool) returns (p: nat, alive: bool)
      requires Valid() && !failed && n > 0 && !(small && config.bitmaps && ClassOf(n) < CLASSES)
      modifies this, mem
      ensures Gives(Allocation(old(St()), n, small, config, false), p, alive, St())
      ensures alive ==> Valid() && (mem == old(mem) || fresh(mem)) && Kept(old(mem[..]), mem[..], old(layout), -1)
      ensures alive && p != 0 && clear ==> Cleared(mem[..], layout, p)
      ensures message == old(message) && metadata == old(metadata)
      decreases if small then 1 else 0, Growths(layout, Align8(n) + HEADER), 1
    {
      hide Layout.Tiled, Layout.Listed, Agrees, Kept, Cleared, Align8;
      var size := Align8(n);
      Align8Multiple(n);
      var block, prev, i := FindFit(size + HEADER);
      if block == 0 {
        if !config.movable {
          KeptSame(mem[..], layout);
          MarkAllocationFailed();
          return 0, true;
        }
        p, alive := GrowAndAllocate(n, size, clear, small);
      } else {
        p := TakeFit(block, size, prev, clear, i);
        alive := true;
      }
    }

    /** Allocates n bytes, which no free block holds, in a grown buffer. */
    method GrowAndAllocate(n: word, size: nat, clear: bool, small: bool) returns (p: nat, alive: bool)
      requires Valid() && !failed && n > 0 && size == Align8(n) && config.movable
      requires FirstFit(layout, size + HEADER, 0) == |layout.free| && !(small && config.bitmaps && ClassOf(n) < CLASSES)
      modifies this, mem
      ensures Gives(Allocation(old(St()), n, small, config, false), p, alive, St())
      ensures alive ==> Valid() && (mem == old(mem) || fresh(mem)) && Kept(old(mem[..]), mem[..], old(layout), -1)
      ensures alive && p != 0 && clear ==> Cleared(mem[..], layout, p)
      ensures message == old(message) && metadata == old(metadata)
      decreases if small then 1 else 0, Growths(layout, Align8(n) + HEADER), 0
    {
      hide Layout.Tiled, Layout.Listed, Agrees, Kept, Growths, Grow, Allocation, SameLive, Gives, Align8, FirstFit,
        Doubled, ClassOf, Cleared;
      ghost var s, m := St(), mem[..];
      GrownAllocation(s, n, size, small, config);
      alive := GrowBuffer(size + HEADER);
      if alive {
        p, alive := AllocateGrown(size, clear, small, m, s.l);
      } else {
        p := 0;
        GivesAbort(St());
      }
    }

    /** Allocates in a buffer that has grown from one with layout l and bytes m. */
    method AllocateGrown(size: word, clear: bool, small: bool, ghost m: seq<byte>, ghost l: Layout)
      returns (p: nat, alive: bool)
      requires Valid() && l.Inv() && SameLive(l, layout) && |m| == l.full <= layout.full && Kept(m, mem[..], l, -1)
      modifies this, mem
      ensures Gives(Allocation(old(St()), size, small, config, true), p, alive, St())
      ensures alive ==> Valid() && (mem == old(mem) || fresh(mem)) && Kept(m, mem[..], l, -1)
      ensures alive && p != 0 && clear ==> Cleared(mem[..], layout, p)
      ensures message == old(message) && metadata == old(metadata)
      decreases if small then 1 else 0, Growths(layout, Align8(size) + HEADER), 4
    {
      hide Layout.Tiled, Layout.Listed, Agrees, Kept, Growths, Allocation, SameLive, Gives, Align8, Cleared;
      ghost var g, m1 := layout, mem[..];
      p, alive := Allocate(size, clear, small);
      if alive { KeptOver(m, m1, mem[..], l, g); }
    }

    /** Allocates n bytes from their class: a block on its list, or one carved from the free list. */
    method AllocateSmallBlock(n: word, c: nat, clear: bool) returns (p: nat, alive: bool)
      requires Valid() && !failed && n > 0 && c == ClassOf(n) < CLASSES
      modifies this, mem
      ensures Gives(AllocateSmall(old(St()), n, config), p, alive, St())
      ensures alive ==> Valid() && (mem == old(mem) || fresh(mem)) && Kept(old(mem[..]), mem[..], old(layout), -1)
      ensures alive && p != 0 && clear ==> Cleared(mem[..], layout, p)
      ensures message == old(message) && metadata == old(metadata)
      decreases 0, 3, 0
    {
      hide Layout.Tiled, Layout.Listed, Agrees, Kept, Allocation, AllocateSmall, CarveOk, Remarked, Gives, Growths;
      ghost var s, m := St(), mem[..];
      IdleHeads(m, freeList, bitmaps, layout, c);
      FourHeads(m, freeList, bitmaps, layout);
      if bitmaps[c] != 0 {
        p := PopSmall(c, n, clear);
        GivesBlock(p, St());
        return p, true;
      }
      CarvedAsSmall(s, ClassSize(c), n, config);
      ghost var r := Allocation(s, ClassSize(c), false, config, true);
      p, alive := Allocate(ClassSize(c), false, false);
      if alive && p != 0 {
        ghost var t := St();
        SmallCarved(s, r, t, p, ClassSize(c), n);
        Resign(p, ClassSize(c), n, clear, m, s.l);
      } else {
        SmallNotCarved(s, r, St(), p, alive, ClassSize(c), n);
      }
    }

    /** Allocates n bytes: by an inline case if one serves, or else the general way. */
    method Allocate(n: word, clear: bool, small: bool) returns (p: nat, alive: bool)
      requires Valid()
      modifies this, mem
      ensures Gives(Allocation(old(St()), n, small, config, true), p, alive, St())
      ensures alive ==> Valid() && (mem == old(mem) || fresh(mem)) && Kept(old(mem[..]), mem[..], old(layout), -1)
      ensures alive && p != 0 && clear ==> Cleared(mem[..], layout, p)
      ensures alive && p == 0 && n > 0 && !config.movable ==> NothingLeft()
      ensures alive && p == 0 && n > 0 && config.movable && !old(failed) ==> n > 0xFFFF_FFF8
      ensures message == old(message) && metadata == old(metadata)
      decreases if small then 1 else 0, Growths(layout, Align8(n) + HEADER), 3
    {
      ghost var s := St();
      hide Layout.Tiled, Layout.Listed, Agrees, Kept, Allocation, InlineFits;
      p := TryAllocateInPlace(n, clear, small);
      alive := true;
      if p == 0 {
        InlineMissChangesNothing(s, n, small, config);
        p, alive := AllocateSlow(n, clear, small);
      }
    }

    /** Gives a newly carved block the size word of a small block for n bytes. */
    method Resign(p: nat, size: nat, n: nat, clear: bool, ghost m: seq<byte>, ghost l: Layout)
      requires Valid() && LiveAt(layout, p) && ClassOf(n) < CLASSES && size == ClassSize(ClassOf(n))
      requires layout.tiles[p - HEADER] == Tile(size + HEADER, Regular)
      requires l.Inv() && Keeps(l, layout, -1) && !LiveAt(l, p) && |m| == l.full <= layout.full
      requires Kept(m, mem[..], l, -1)
      modifies this`layout, mem
      ensures Valid() && layout == Mark(old(layout), p - HEADER, Small(n)) && LiveAt(layout, p)
      ensures Kept(m, mem[..], l, -1)
      ensures clear ==> Cleared(mem[..], layout, p)
    {
      var o := p - HEADER;
      ghost var g, m1 := layout, mem[..];
      MarkInv(g, o, Lost);
      LoseAgrees(m1, freeList, bitmaps, g, NONE, o);
      layout := Mark(g, o, Lost);
      hide Layout.Tiled, Layout.Listed, Agrees, Kept;
      WriteSize(o, FLAG + n, Small(n));
      NewKeeps(m, m1, mem[..], l, g, o, o, p);
      assert layout == Mark(g, o, Small(n));
      if clear {
        ghost var m2 := mem[..];
        ZeroIn(o, p, size);
        NewKeeps(m, m2, mem[..], l, g, o, p, p + size);
      }
    }

    // ---- Freeing ----

    /** The first free block above o and the one before it; 0 if there is none. */
    method FindAbove(o: nat) returns (block: nat, prev: nat, ghost i: nat)
      requires Valid() && o in layout.tiles && !layout.tiles[o].kind.Free?
      ensures i == Below(layout.free, o) <= |layout.free|
      ensures block == LinkAt(layout.free, i) && (block == 0 <==> i == |layout.free|)
      ensures prev == if i == 0 then 0 else layout.free[i - 1]
    {
      FreeHead(mem[..], freeList, bitmaps, layout);
      block, prev, i := freeList, 0, 0;
      while block != 0
        invariant i <= |layout.free| && block == LinkAt(layout.free, i) && (block == 0 <==> i == |layout.free|)
        invariant prev == if i == 0 then 0 else layout.free[i - 1]
        invariant i > 0 ==> layout.free[i - 1] < o
        decreases |layout.free| - i
      {
        FreeHeader(mem[..], freeList, bitmaps, layout, i);
        if block > o {
          break;
        }
        prev := block;
        block := Load32(block + 4);
        i := i + 1;
        if i < |layout.free| { FreeInside(layout, i); }
      }
      BelowUnique(layout.free, o, i);
    }

    /** Joins the block at o to the free block `prev`, if that ends where it starts, by what its header says. */
    method MergeWithBelowIfPossible(o: nat, prev: nat) returns (merged: bool)
      requires o + HEADER <= mem.Length && prev + HEADER <= o && Load32(prev) as int + Load32(o) as int < WORD_LIMIT
      modifies mem
      ensures merged <==> prev + Get32(old(mem[..]), prev) == o
      ensures !merged ==> mem[..] == old(mem[..])
      ensures merged ==> OnlyIn(old(mem[..]), mem[..], prev, prev + HEADER)
      ensures merged ==> Get32(mem[..], prev) == Get32(old(mem[..]), prev) as int + Get32(old(mem[..]), o) as int
      ensures merged ==> Get32(mem[..], prev + 4) == Get32(old(mem[..]), o + 4)
    {
      merged := prev + Load32(prev) == o;
      if merged {
        StoreHeader(prev, Load32(prev) as int + Load32(o) as int, Load32(o + 4));
      }
    }

    /** Puts the unlisted tile at o, `length` bytes after its size word, before free block i, joined if they touch. */
    method MergeWithAboveIfPossible(o: nat, block: nat, prev: nat, length: nat, ghost i: nat)
      requires Valid() && !failed && o in layout.tiles && layout.tiles[o] == Tile(length + HEADER, Lost)
      requires i == Below(layout.free, o) < |layout.free| && block == layout.free[i]
      requires prev == (if i == 0 then 0 else layout.free[i - 1])
      modifies this`freeList, this`layout, mem
      ensures Valid() && layout == Give(UpTo(old(layout), i, o), i, o)
      ensures UpTo(old(layout), i, o).Inv() && UpTo(old(layout), i, o).TileOk(o)
      ensures TwoHeaders(old(mem[..]), mem[..], old(layout).free, o, i)
    {
      hide Layout.Tiled, Layout.Listed, Agrees, TwoHeaders, Get32, Put32, Same;
      ghost var l, m := layout, mem[..];
      BelowFlag(m, freeList, bitmaps, l, NONE);
      AboveHeader(m, freeList, bitmaps, l, o, i);
      if o + HEADER + length == block {
        StoreHeader(o, length + HEADER + Load32(block), Load32(block + 4));
      } else {
        StoreHeader(o, length + HEADER, block);
      }
      MergedAbove(m, mem[..], freeList, bitmaps, l, o, i);
      ghost var m1 := mem[..];
      layout := Give(UpTo(l, i, o), i, o);
      LinkTo(prev, o, i - 1);
      TwoWrites(m, m1, mem[..], l, o, i);
    }

    /** Puts the unlisted tile at o on the list with a free block above it. */
    method InsertBelowFree(o: nat, block: nat, prev: nat, length: nat, ghost i: nat)
      requires Valid() && !failed && o in layout.tiles && layout.tiles[o] == Tile(length + HEADER, Lost)
      requires i == Below(layout.free, o) < |layout.free| && block == layout.free[i]
      requires prev == (if i == 0 then 0 else layout.free[i - 1])
      modifies this`freeList, this`layout, mem
      ensures Valid() && layout == Insert(old(layout), o)
      ensures TwoHeaders(old(mem[..]), mem[..], old(layout).free, o, i)
    {
      hide Layout.Tiled, Layout.Listed, Agrees, TwoHeaders, Insert, Below;
      ghost var l, m := layout, mem[..];
      UpToInv(l, i, o);
      InsertCases(l, o, i);
      if i > 0 { FreeInside(l, i - 1); }
      hide UpTo;
      MergeWithAboveIfPossible(o, block, prev, length, i);
      ghost var m1 := mem[..];
      if prev != 0 {
        JoinDown(o, prev, i, UpTo(l, i, o));
        ThreeWrites(m, m1, mem[..], l, o, i);
      }
    }

    /** Joins free block i, at o, to the one before it, if they touch. */
    method JoinDown(o: nat, prev: nat, ghost i: nat, ghost u: Layout)
      requires Valid() && u.Inv() && o in u.tiles && u.tiles[o].kind.Lost? && 0 < i <= |u.free|
      requires layout == Give(u, i, o) && layout.Inv() && prev == u.free[i - 1] < o && (i < |u.free| ==> o < u.free[i])
      modifies this`layout, mem
      ensures Valid() && layout == if JoinsBelow(u, i, o) then JoinBelow(u, i, o) else Give(u, i, o)
      ensures mem[..] == old(mem[..]) || OnlyIn(old(mem[..]), mem[..], prev, prev + HEADER)
    {
      ghost var m := mem[..];
      MergeWords(m, freeList, bitmaps, u, i, o);
      var merged := MergeWithBelowIfPossible(o, prev);
      if merged {
        MergedBelow(m, mem[..], freeList, bitmaps, u, i, o);
        layout := JoinBelow(u, i, o);
      }
    }

    /** Puts the unlisted tile at o on the list with no free block above it. */
    method InsertAtEnd(o: nat, prev: nat, length: nat, ghost i: nat)
      requires Valid() && !failed && o in layout.tiles && layout.tiles[o] == Tile(length + HEADER, Lost)
      requires Load32WordsAre(mem[..], o, length)
      requires i == Below(layout.free, o) == |layout.free| && prev == (if i == 0 then 0 else layout.free[i - 1])
      modifies this`freeList, this`layout, mem
      ensures Valid() && layout == Insert(old(layout), o)
      ensures TwoHeaders(old(mem[..]), mem[..], old(layout).free, o, i)
    {
      hide Layout.Tiled, Layout.Listed, Agrees, Get32, Below;
      ghost var l, m := layout, mem[..];
      if prev != 0 {
        LastWords(m, freeList, bitmaps, l, o);
        var merged := MergeWithBelowIfPossible(o, prev);
        if merged {
          JoinBelowShortAgrees(m, mem[..], freeList, bitmaps, l, i, o);
          layout := JoinBelowShort(l, i, o);
          return;
        }
      }
      NoLast(l, o, i);
      InsertNewFreeBlockAtEnd(o, prev, length + HEADER, i);
    }

    /** Makes the tile at o the last free block. */
    method InsertNewFreeBlockAtEnd(o: nat, prev: nat, length: nat, ghost i: nat)
      requires Valid() && !failed && o in layout.tiles && layout.tiles[o] == Tile(length, Lost)
      requires i == Below(layout.free, o) == |layout.free| && prev == (if i == 0 then 0 else layout.free[i - 1])
      modifies this`freeList, this`layout, mem
      ensures Valid() && layout == Give(old(layout), i, o)
      ensures TwoHeaders(old(mem[..]), mem[..], old(layout).free, o, i)
    {
      ghost var l, m := layout, mem[..];
      assert l.TileOk(o);
      StoreHeader(o, length, 0);
      GiveInv(l, i, o);
      GiveAgrees(m, mem[..], freeList, bitmaps, l, NONE, i, o);
      ghost var m1 := mem[..];
      layout := Give(l, i, o);
      hide Layout.Tiled, Layout.Listed, Agrees, TwoHeaders;
      LinkTo(prev, o, i - 1);
      TwoWrites(m, m1, mem[..], l, o, i);
    }

    /** Puts the unlisted tile at o, with `length` bytes after its size word, on the free list. */
    method InsertBlock(o: nat, length: nat)
      requires Valid() && !failed && o in layout.tiles && layout.tiles[o] == Tile(length + HEADER, Lost)
      requires Load32WordsAre(mem[..], o, length)
      modifies this`freeList, this`layout, mem
      ensures Valid() && layout == Insert(old(layout), o)
      ensures TwoHeaders(old(mem[..]), mem[..], old(layout).free, o, Below(old(layout).free, o))
    {
      var block, prev, i := FindAbove(o);
      hide Layout.Tiled, Layout.Listed, Agrees, Insert, TwoHeaders, Below, Load32WordsAre;
      if block != 0 {
        InsertBelowFree(o, block, prev, length, i);
      } else {
        InsertAtEnd(o, prev, length, i);
      }
    }

    /** Frees a block that is not on a class list, or that Free() did not take for a small one. */
    method FreeSlow(p: nat)
      requires Valid() && !failed && LiveAt(layout, p)
      modifies this`freeList, this`bitmaps, this`layout, mem
      ensures Valid() && St() == Release(old(St()), p)
      ensures Kept(old(mem[..]), mem[..], old(layout), p - HEADER)
    {
      hide Layout.Tiled, Layout.Listed, Agrees, Kept, Insert, TwoHeaders, Release;
      var o := p - HEADER;
      LiveWords(mem[..], freeList, bitmaps, layout, o);
      var length := Load32(o);
      if length >= FLAG && ClassOf(length % 256) < CLASSES {
        FreeSmallBlock(p, ClassOf(length % 256));
        return;
      }
      ghost var l, m := layout, mem[..];
      RegularReleased(St(), p);
      LoseAgrees(m, freeList, bitmaps, l, NONE, o);
      layout := Mark(l, o, Lost);
      InsertBlock(o, length);
      TwoHeadersKeep(m, mem[..], l, o, Below(l.free, o));
    }

    /** Puts a small block on the list of its class. */
    method FreeSmallBlock(p: nat, c: nat)
      requires Valid() && !failed && LiveAt(layout, p) && layout.tiles[p - HEADER].kind.Small?
      requires c == ClassOf(layout.tiles[p - HEADER].kind.size)
      modifies this`bitmaps, this`layout, mem
      ensures Valid() && St() == Release(old(St()), p)
      ensures Kept(old(mem[..]), mem[..], old(layout), p - HEADER)
    {
      var o := p - HEADER;
      ghost var l, m := layout, mem[..];
      assert l.TileOk(o);
      MarkInv(l, o, Lost);
      LoseAgrees(m, freeList, bitmaps, l, NONE, o);
      IdleHeads(m, freeList, bitmaps, l, c);
      assert l.idle[c] != [] ==> l.IdleAt(c, 0);
      Store32(p, bitmaps[c]);
      PushIdleInv(Mark(l, o, Lost), c, o);
      assert Mark(l, o, Lost).TileOk(o);
      PushIdleAgrees(m, mem[..], freeList, bitmaps, Mark(l, o, Lost), NONE, c, o);
      WriteKeeps(m, m, mem[..], l, o, o, p, p + 4);
      bitmaps := bitmaps[c := p];
      layout := PushIdle(Mark(l, o, Lost), c, o);
    }

    /** Frees the block at p.  A failed buffer's lists stay empty, so its blocks are only dropped. */
    method Free(p: nat)
      requires Valid() && (p == 0 || LiveAt(layout, p))
      modifies this`freeList, this`bitmaps, this`layout, mem
      ensures Valid() && St() == if p == 0 then old(St()) else Release(old(St()), p)
      ensures Kept(old(mem[..]), mem[..], old(layout), if p == 0 then -1 else p - HEADER)
    {
      if p == 0 || failed {
        if p != 0 {
          MarkInv(layout, p - HEADER, Lost);
          LoseAgrees(mem[..], freeList, bitmaps, layout, NONE, p - HEADER);
          layout := Mark(layout, p - HEADER, Lost);
        }
        return;
      }
      LiveWords(mem[..], freeList, bitmaps, layout, p - HEADER);
      var sizeWord := Load32(p - HEADER);
      if sizeWord >= FLAG {
        var c := ClassOf(sizeWord % 256);
        if c < CLASSES {
          FreeSmallBlock(p, c);
          return;
        }
      }
      FreeSlow(p);
    }

    // ---- Resizing a block ----

    /**
    Looks past the block at o for a free block to take `more` bytes from: 1 for the one above it, 2 for the
    one below it, or 0.
    */
    method FindRoom(o: nat, size: nat, more: nat)
      returns (route: nat, block: nat, prev: nat, prevPrev: nat, ghost i: nat)
      requires Valid() && Live(layout, o) && layout.tiles[o].len == size + HEADER && more > 0
      ensures i == Below(layout.free, o)
      ensures route == if CanExpandUp(layout, o, more) then 1 else if CanSlideDown(layout, o, more) then 2 else 0
      ensures route != 0 ==> AtLink(layout.free, i, block, prev, prevPrev)
    {
      hide Layout.Tiled, Layout.Listed, Agrees, Below, Get32, Layout.TileOk, CanExpandUp, CanSlideDown;
      i := Below(layout.free, o);
      FreeHead(mem[..], freeList, bitmaps, layout);
      Routes(layout, o, size, more, i);
      route, block, prev, prevPrev := 0, freeList, 0, 0;
      ghost var j := 0;
      while block != 0
        invariant AtLink(layout.free, j, block, prev, prevPrev)
        invariant j <= i || (i == 0 && j == 1 && !CanExpandUp(layout, o, more))
        decreases |layout.free| - j
      {
        FreeHeader(mem[..], freeList, bitmaps, layout, j);
        Around(mem[..], freeList, bitmaps, layout, o, i, j);
        if block > o {
          if o + HEADER + size == block && Load32(block) > more && Load32(block) - more > HEADER {
            return 1, block, prev, prevPrev, i;
          }
          if prev != 0 {
            if prev + Load32(prev) == o && Load32(prev) >= more {
              route := 2;
            }
            return;
          }
        }
        prevPrev := prev;
        prev := block;
        block := Load32(block + 4);
        j := j + 1;
        if j < |layout.free| { FreeInside(layout, j); }
      }
    }

    /** Splits the regular block at o into two allocated ones, the first of `size` bytes. */
    method SplitBlock(o: nat, orig: nat, size: nat)
      requires Valid() && Live(layout, o) && layout.tiles[o] == Tile(orig + HEADER, Regular) && size % 8 == 0
      requires size < orig
      modifies this`layout, mem
      ensures Valid() && layout == SplitAt(old(layout), o, size)
      ensures OnlyHeaders(old(mem[..]), mem[..], o, o + HEADER + size)
    {
      ghost var l, m := layout, mem[..];
      assert l.TileOk(o);
      SplitInv(l, o, size);
      LoseAgrees(m, freeList, bitmaps, l, NONE, o);
      CutAgrees(m, freeList, bitmaps, Mark(l, o, Lost), NONE, o, size + HEADER);
      layout := Cut(Mark(l, o, Lost), o, size + HEADER);
      hide Layout.Tiled, Layout.Listed, Agrees;
      WriteSize(o, size, Regular);
      WriteSize(o + HEADER + size, orig - size - HEADER, Regular);
    }

    /** Frees what is past the first `size` bytes of the regular block at o. */
    method ShrinkBlock(o: nat, orig: nat, size: nat)
      requires Valid() && Live(layout, o) && layout.tiles[o] == Tile(orig + HEADER, Regular) && size % 8 == 0
      requires size < orig
      modifies this`freeList, this`bitmaps, this`layout, mem
      ensures orig - size >= HEADER && Valid() && St() == Shrink(old(St()), o, size)
      ensures Kept(old(mem[..]), mem[..], old(layout), o) && Same(old(mem[..]), mem[..], o + HEADER, o + HEADER + size)
    {
      hide Layout.Tiled, Layout.Listed, Agrees, Shrink, Release, SplitAt, Kept, OnlyHeaders;
      ghost var s, m := St(), mem[..];
      ShrinkIsSplit(s, o, size);
      SplitBlock(o, orig, size);
      ghost var m1 := mem[..];
      Free(o + HEADER + size + HEADER);
      SplitKeeps(m, m1, mem[..], s.l, o, size);
    }

    /** Moves the start of free block i up by `more` bytes, which no list holds then. */
    method MoveFreeUp(block: nat, more: nat, prev: nat, ghost i: nat)
      requires Valid() && !failed && i < |layout.free| && block == layout.free[i] && layout.FreeAt(i)
      requires prev == (if i == 0 then 0 else layout.free[i - 1])
      requires 0 < more && more % 8 == 0 && more + HEADER < layout.tiles[block].len
      modifies this`freeList, this`layout, mem
      ensures Valid() && layout == Rest(Hold(old(layout), i), i, block, more)
      ensures TwoHeaders(old(mem[..]), mem[..], old(layout).free, block + more, i)
    {
      hide Layout.Tiled, Layout.Listed, Agrees, TwoHeaders, Get32, Put32, Same;
      ghost var l, m := layout, mem[..];
      BelowFlag(m, freeList, bitmaps, l, NONE);
      FreeHeader(m, freeList, bitmaps, l, i);
      MoreIsBlock(l, i, more);
      var next := block + more;
      StoreHeader(next, Load32(block) - more, Load32(block + 4));
      RestAgrees(m, mem[..], freeList, bitmaps, l, i, more);
      ghost var m1 := mem[..];
      layout := Rest(Hold(l, i), i, block, more);
      LinkTo(prev, next, i - 1);
      TwoWrites(m, m1, mem[..], l, next, i);
    }

    /** The unlisted tile at o takes in the one after it: no byte changes. */
    ghost method FuseTiles(o: nat)
      requires Valid() && o in layout.tiles && layout.tiles[o].kind.Lost? && layout.End(o) in layout.tiles
      requires layout.tiles[layout.End(o)].kind.Lost?
      modifies this`layout
      ensures Valid() && layout == Fuse(old(layout), o)
    {
      FuseInv(layout, o);
      FuseAgrees(mem[..], freeList, bitmaps, layout, NONE, o);
      layout := Fuse(layout, o);
    }

    /** Grows the regular block at o into the free block above it. */
    method ExpandIntoFreeBlockAbove(o: nat, block: nat, size: nat, more: nat, prev: nat, clear: bool, ghost i: nat)
      requires Valid() && !failed && Live(layout, o) && layout.tiles[o].kind.Regular?
      requires size + HEADER == layout.tiles[o].len + more
      requires 0 < more && more % 8 == 0 && CanExpandUp(layout, o, more) && i == Below(layout.free, o)
      requires block == layout.free[i] && prev == (if i == 0 then 0 else layout.free[i - 1])
      modifies this`freeList, this`hwm, this`layout, mem
      ensures Valid() && layout == ExpandUp(old(layout), i, o, more) && hwm == Max(old(hwm), block + more)
      ensures Kept(old(mem[..]), mem[..], old(layout), -1)
      ensures clear ==> Zeros(mem[..], block, block + more)
    {
      hide Layout.Tiled, Layout.Listed, Agrees, Kept, TwoHeaders, Get32, Below;
      ghost var l, m := layout, mem[..];
      ExpandSteps(l, i, o, more);
      LoseAgrees(m, freeList, bitmaps, l, NONE, o);
      layout := Mark(l, o, Lost);
      UpdateHwm(block + more);
      MoveFreeUp(block, more, prev, i);
      FuseTiles(o);
      ghost var m1 := mem[..];
      WriteSize(o, size, Regular);
      ghost var m2 := mem[..];
      if clear {
        ZeroIn(o, block, more);
      }
      ExpandKeeps(m, m1, m2, mem[..], l, o, i, more);
    }

    /** The regular block at o and the free block before it become one unlisted tile: no byte changes. */
    ghost method HoldBelow(i: nat, o: nat)
      requires Valid() && !failed && Live(layout, o) && JoinsBelow(layout, i, o)
      modifies this`layout
      ensures ValidBut(i - 2) && layout == SlideTile(old(layout), i, o) && layout.TileOk(old(layout).free[i - 1])
      ensures layout.tiles[old(layout).free[i - 1]]
          == Tile(old(layout).tiles[old(layout).free[i - 1]].len + old(layout).tiles[o].len, Lost)
    {
      MarkInv(layout, o, Lost);
      LoseAgrees(mem[..], freeList, bitmaps, layout, NONE, o);
      HeldFuseAgrees(mem[..], freeList, bitmaps, Mark(layout, o, Lost), NONE, i, o);
      layout := SlideTile(layout, i, o);
    }

    /** Writes the size word of the block at f, moves the contents of the one at o there, and clears the rest. */
    method SlideContents(f: nat, o: nat, orig: nat, size: nat, clear: bool, ghost k: int)
      requires ValidBut(k) && f in layout.tiles && layout.tiles[f].kind.Lost? && layout.TileOk(f) && f + HEADER <= o
      requires o + HEADER + orig == layout.End(f) && orig < size && f + HEADER + size <= layout.End(f)
      modifies mem
      ensures ValidBut(k) && OnlyIn(old(mem[..]), mem[..], f, f + HEADER + size)
      ensures Load32WordsAre(mem[..], f, size)
      ensures Shifted(old(mem[..]), mem[..], o + HEADER, f + HEADER, orig)
      ensures clear ==> Zeros(mem[..], f + HEADER + orig, f + HEADER + size)
    {
      hide Layout.Tiled, Layout.Listed, Agrees, Get32, Put32, Move, Zero, OnlyIn, Shifted, Zeros, Same;
      ghost var m := mem[..];
      BelowFlag(m, freeList, bitmaps, layout, k);
      StoreHeader(f, size, 0);
      ghost var m1 := mem[..];
      MoveBytes(f + HEADER, o + HEADER, orig);
      ghost var m2 := mem[..];
      MovedBytesAre(m, m1, m2, f, o, orig);
      if clear {
        ZeroBytes(f + HEADER + orig, size - orig);
      }
      SlideFrame(m, m1, m2, mem[..], f, o, orig, size);
      WriteAgrees(m, mem[..], freeList, bitmaps, layout, k, f, f, f + HEADER + size);
    }

    /** Puts what is left of the tile at f past a block of `size` bytes on the list, if anything is. */
    method ReturnRest(f: nat, size: nat, remaining: nat, next: nat, prevPrev: nat, ghost i: nat)
      requires 0 < i && ValidBut(i - 2) && !failed && i - 1 <= |layout.free| && size % 8 == 0
      requires f in layout.tiles && layout.tiles[f] == Tile(size + HEADER + remaining, Lost)
      requires next == LinkAt(layout.free, i - 1)
      requires (i > 1 ==> layout.free[i - 2] < f) && (i - 1 < |layout.free| ==> layout.End(f) <= layout.free[i - 1])
      requires prevPrev == if i < 2 then 0 else layout.free[i - 2]
      modifies this`freeList, this`layout, mem
      ensures Valid() && layout == Rest(old(layout), i - 1, f, size + HEADER)
      ensures TwoHeaders(old(mem[..]), mem[..], old(layout).free, f + size + HEADER, i - 1)
    {
      hide Layout.Tiled, Layout.Listed, Agrees, TwoHeaders, Get32, Put32, Same;
      ghost var g, m := layout, mem[..];
      BelowFlag(m, freeList, bitmaps, g, i - 2);
      RestMultiple(g, i - 1, f, size, remaining);
      NextInside(g, i - 1);
      if remaining >= HEADER {
        var rest := f + size + HEADER;
        StoreHeader(rest, remaining, next);
        CutRestAgrees(m, mem[..], freeList, bitmaps, g, i - 1, f, size + HEADER);
        ghost var m1 := mem[..];
        layout := Rest(g, i - 1, f, size + HEADER);
        LinkTo(prevPrev, rest, i - 2);
        TwoWrites(m, m1, mem[..], g, rest, i - 1);
      } else {
        LinkTo(prevPrev, next, i - 2);
        OneWrite(m, mem[..], g, f + size + HEADER, i - 1);
      }
    }

    /** The unlisted tile at f, whose size word is already written, becomes a regular block: no byte changes. */
    ghost method MarkRegular(f: nat)
      requires Valid() && f in layout.tiles && layout.tiles[f].kind.Lost?
      requires Load32WordsAre(mem[..], f, layout.tiles[f].len - HEADER)
      modifies this`layout
      ensures Valid() && layout == Mark(old(layout), f, Regular)
    {
      assert layout.TileOk(f);
      MarkInv(layout, f, Regular);
      MarkAgrees(mem[..], mem[..], freeList, bitmaps, layout, NONE, f, Regular);
      layout := Mark(layout, f, Regular);
    }

    /** ReturnRest(), after which the tile at f, whose size word is already written, is a regular block. */
    method PlaceBlock(f: nat, size: nat, remaining: nat, next: nat, prevPrev: nat, ghost i: nat)
      requires 0 < i && ValidBut(i - 2) && !failed && i - 1 <= |layout.free| && size % 8 == 0
      requires f in layout.tiles && layout.tiles[f] == Tile(size + HEADER + remaining, Lost)
      requires next == LinkAt(layout.free, i - 1)
      requires (i > 1 ==> layout.free[i - 2] < f) && (i - 1 < |layout.free| ==> layout.End(f) <= layout.free[i - 1])
      requires prevPrev == if i < 2 then 0 else layout.free[i - 2]
      requires Load32WordsAre(mem[..], f, size)
      modifies this`freeList, this`layout, mem
      ensures Valid() && layout == Mark(Rest(old(layout), i - 1, f, size + HEADER), f, Regular)
      ensures TwoHeaders(old(mem[..]), mem[..], old(layout).free, f + size + HEADER, i - 1)
    {
      ghost var g, m := layout, mem[..];
      BelowApart(g, i - 1, f, size, remaining);
      hide Layout.Tiled, Layout.Listed, Agrees, TwoHeaders, Load32WordsAre;
      ReturnRest(f, size, remaining, next, prevPrev, i);
      WordsStay(m, mem[..], g.free, f, size, i - 1);
      MarkRegular(f);
    }

    /** Moves the regular block at o down to the free block before it, with `size` bytes. */
    method MergeWithFreeBlockBelow(o: nat, f: nat, prevPrev: nat, size: nat, orig: nat, clear: bool, ghost i: nat)
      returns (p: nat)
      requires Valid() && !failed && Live(layout, o) && layout.tiles[o] == Tile(orig + HEADER, Regular) && size % 8 == 0
      requires orig < size
      requires CanSlideDown(layout, o, size - orig) && i == Below(layout.free, o)
      requires f == layout.free[i - 1] && prevPrev == (if i < 2 then 0 else layout.free[i - 2])
      modifies this`freeList, this`layout, mem
      ensures Valid() && layout == SlideDown(old(layout), i, o, size) && p == f + HEADER
      ensures Kept(old(mem[..]), mem[..], old(layout), o)
      ensures Shifted(old(mem[..]), mem[..], o + HEADER, p, orig)
      ensures clear ==> Zeros(mem[..], p + orig, p + size)
    {
      ghost var l, m := layout, mem[..];
      hide Layout.Tiled, Layout.Listed, Agrees, Kept, Shifted, Zeros, SlideTile, SlideDown, OnlyIn, Get32, Below,
        JoinsBelow, SlideTo, Slid;
      SlideWords(m, freeList, bitmaps, l, i, o, size);
      var next := Load32(f + 4);
      var remaining := Load32(f) + orig - size;
      SlideIs(l, i, o, size, orig, remaining, next, prevPrev);
      HoldBelow(i, o);
      SlideContents(f, o, orig, size, clear, i - 2);
      SlidIs(m, mem[..], l, i, o, orig, size, clear);
      p := FinishSlide(m, l, f, o, size, orig, remaining, next, prevPrev, clear, i);
    }

    /** Places the block at f whose contents have been slid there. */
    method FinishSlide(ghost m: seq<byte>, ghost l: Layout, f: nat, o: nat, size: nat, orig: nat, remaining: nat,
          next: nat,
        prevPrev: nat, clear: bool, ghost i: nat) returns (p: nat)
      requires Slid(m, mem[..], l, i, o, orig, size, clear) && layout == SlideTile(l, i, o) && !failed
      requires ValidBut(i - 2)
      requires SlideTo(l, i, o, size, f, remaining, next, prevPrev) && Load32WordsAre(mem[..], f, size)
      modifies this`freeList, this`layout, mem
      ensures Valid() && layout == SlideDown(l, i, o, size) && p == f + HEADER
      ensures Kept(m, mem[..], l, o)
      ensures Shifted(m, mem[..], o + HEADER, p, orig)
      ensures clear ==> Zeros(mem[..], p + orig, p + size)
    {
      hide Layout.Tiled, Layout.Listed, Agrees, Kept, TwoHeaders, Shifted, Zeros, SlideTile, SlideDown, Rest, OnlyIn,
        Load32WordsAre, Mark, LinkAt, Slid;
      ghost var m1 := mem[..];
      PlaceBlock(f, size, remaining, next, prevPrev, i);
      SlideKeepsContents(m, m1, mem[..], l, i, o, orig, size, clear);
      p := f + HEADER;
    }

    /** Allocates n bytes, copies the `recorded` bytes of the block at p or as many as fit, and frees it. */
    method MoveBlock(p: nat, recorded: nat, n: word, clear: bool, small: bool) returns (q: nat, alive: bool)
      requires Valid() && LiveAt(layout, p) && recorded == Recorded(layout.tiles[p - HEADER]) && n <= MAX_REQUEST
      modifies this, mem
      ensures Gives(Moved(old(St()), p, n, small, config), q, alive, St())
      ensures alive ==> Valid() && (mem == old(mem) || fresh(mem))
      ensures alive ==> Brings(old(mem[..]), mem[..], old(layout), p, q, recorded, n, clear)
      ensures message == old(message) && metadata == old(metadata)
    {
      ghost var s, m := St(), mem[..];
      ghost var r := Allocation(s, n, small, config, true);
      AllocationIsOk(s, n, small, config, true);
      hide Layout.Tiled, Layout.Listed, Agrees, Kept, Allocation, Moved, AllocationOk, Gives, Brings;
      q, alive := Allocate(n, false, small);
      if !alive || q == 0 {
        NotMoved(s, p, n, small, config, q, alive, St());
        if alive { NothingBrought(m, mem[..], s.l, p, recorded, n, clear); }
        return;
      }
      MovedTo(s, p, n, small, config, q, St());
      q := CopyAndFree(p, recorded, n, q, clear, m, s.l);
    }

    /** Copies the block at p to the newer one at q, clears what follows, and frees p. */
    method CopyAndFree(p: nat, recorded: nat, n: word, to: nat, clear: bool, ghost m: seq<byte>, ghost l: Layout)
      returns (q: nat)
      requires Valid() && l.Inv() && Keeps(l, layout, -1) && LiveAt(l, p) && LiveAt(layout, to) && !LiveAt(l, to)
      requires LiveAt(layout, p)
      requires recorded == Recorded(l.tiles[p - HEADER]) && to + n <= layout.End(to - HEADER)
      requires |m| == l.full <= layout.full && Kept(m, mem[..], l, -1)
      modifies this`freeList, this`bitmaps, this`layout, mem
      ensures Valid() && St() == Release(old(St()), p) && q == to
      ensures Brings(m, mem[..], l, p, to, recorded, n, clear)
    {
      hide Layout.Tiled, Layout.Listed, Agrees, Kept, Release;
      ghost var m1, g := mem[..], layout;
      q := to;
      BlocksApart(l, g, p, to);
      MoveBytes(to, p, if recorded < n then recorded else n);
      ghost var m2 := mem[..];
      if clear && n > recorded {
        ZeroBytes(to + recorded, n - recorded);
      }
      Copied(m, m1, m2, mem[..], l, g, p, to, recorded, n, clear);
      WriteAgrees(m1, mem[..], freeList, bitmaps, g, NONE, to - HEADER, to, to + n);
      ghost var m3 := mem[..];
      hide Carried, OnlyIn, Same, Brings;
      Free(p);
      FreedAfter(m, m1, m3, mem[..], l, g, p, to, recorded, n, clear);
    }

    /** Gives the small block at p, whose class n is in too, the size n. */
    method ResizeInClass(p: nat, recorded: nat, n: word, clear: bool)
      requires Valid() && LiveAt(layout, p) && layout.tiles[p - HEADER].kind == Small(recorded)
      requires ClassOf(n) == ClassOf(recorded) < CLASSES
      modifies this`layout, mem
      ensures Valid() && layout == Mark(old(layout), p - HEADER, Small(n))
      ensures Brings(old(mem[..]), mem[..], old(layout), p, p, recorded, n, clear)
    {
      var o := p - HEADER;
      ghost var l, m := layout, mem[..];
      ClassRoom(l, o, recorded, n);
      LoseAgrees(m, freeList, bitmaps, l, NONE, o);
      layout := Mark(l, o, Lost);
      hide Layout.Tiled, Layout.Listed, Agrees, Brings;
      WriteSize(o, FLAG + n, Small(n));
      ghost var m1 := mem[..];
      if clear && n > recorded {
        ZeroIn(o, p + recorded, n - recorded);
      }
      InClassBrings(m, m1, mem[..], l, o, recorded, n, clear);
    }

    /** Resizes the regular block at p to n bytes. */
    method ReallocRegular(p: nat, orig: nat, n: word, clear: bool, small: bool) returns (q: nat, alive: bool)
      requires Valid() && LiveAt(layout, p) && layout.tiles[p - HEADER] == Tile(orig + HEADER, Regular)
      modifies this, mem
      ensures Gives(Reallocation(old(St()), p, n, small, config), q, alive, St())
      ensures alive ==> Valid() && (mem == old(mem) || fresh(mem))
      ensures alive ==> Brings(old(mem[..]), mem[..], old(layout), p, q, orig, Asked(n), clear)
      ensures message == old(message) && metadata == old(metadata)
    {
      var o := p - HEADER;
      var size := Align8(n);
      ghost var s, m := St(), mem[..];
      RegularCases(s, p, n, orig, small, config);
      hide Layout.Tiled, Layout.Listed, Agrees, Kept, Brings, Reallocation, Moved, Shrink, ExpandUp, SlideDown, Gives,
        Align8, CanStay, Resized, Asked;
      alive := true;
      if size == orig {
        q := p;
        GivesBlock(p, s);
        SameBrings(m, s.l, p, orig, Asked(n), clear);
      } else if size < orig {
        ShrinkBlock(o, orig, size);
        q := p;
        GivesBlock(p, St());
        ShrunkBrings(m, mem[..], s.l, p, orig, size, Asked(n), clear);
      } else {
        q, alive := GrowRegular(p, orig, n, size, clear, small);
      }
    }

    /** Resizes the regular block at p to more bytes: into a free block beside it, or else by moving it. */
    method GrowRegular(p: nat, orig: nat, n: word, size: word, clear: bool, small: bool) returns (q: nat, alive: bool)
      requires Valid() && LiveAt(layout, p) && layout.tiles[p - HEADER] == Tile(orig + HEADER, Regular)
      requires n <= MAX_REQUEST
      requires size == Align8(n) > orig && size % 8 == 0 && orig % 8 == 0 && n <= size <= MAX_REQUEST
      modifies this, mem
      ensures Gives(Reallocation(old(St()), p, n, small, config), q, alive, St())
      ensures alive ==> Valid() && (mem == old(mem) || fresh(mem))
      ensures alive ==> Brings(old(mem[..]), mem[..], old(layout), p, q, orig, n, clear)
      ensures message == old(message) && metadata == old(metadata)
    {
      var o := p - HEADER;
      hide Layout.Tiled, Layout.Listed, Agrees, Kept, Brings, Reallocation, Gives, Align8, CanExpandUp, CanSlideDown,
        Below;
      var route, block, prev, prevPrev, i := FindRoom(o, orig, size - orig);
      alive := true;
      if route == 1 {
        RoomAbove(St(), o, size - orig);
        ExpandRoute(p, orig, size, n, block, prev, clear, small, i);
        q, alive := p, true;
      } else if route == 2 {
        q := SlideRoute(p, orig, size, n, prev, prevPrev, clear, small, i);
      } else {
        q, alive := MoveRoute(p, orig, size, n, clear, small);
      }
    }

    /** Resizes the regular block at p by growing into the free block above it. */
    method ExpandRoute(p: nat, orig: nat, size: word, n: word, block: nat, prev: nat, clear: bool, small: bool,
          ghost i: nat)
      requires Valid() && LiveAt(layout, p) && layout.tiles[p - HEADER] == Tile(orig + HEADER, Regular)
      requires size == Align8(n) > orig && size % 8 == 0 && orig % 8 == 0 && n <= size <= MAX_REQUEST
      requires CanExpandUp(layout, p - HEADER, size - orig) && i == Below(layout.free, p - HEADER)
      requires AtLink2(layout.free, i, block, prev)
      modifies this`freeList, this`hwm, this`layout, mem
      ensures Gives(Reallocation(old(St()), p, n, small, config), p, true, St())
      ensures Valid() && Brings(old(mem[..]), mem[..], old(layout), p, p, orig, n, clear)
    {
      hide Layout.Tiled, Layout.Listed, Agrees, Kept, Brings, Reallocation, Moved, Gives, Align8, ExpandUp, SlideDown,
        CanExpandUp, CanSlideDown, Below;
      ghost var s, m := St(), mem[..];
      GrowCases(s, p, n, orig, size, small, config);
      RoomAbove(s, p - HEADER, size - orig);
      ExpandIntoFreeBlockAbove(p - HEADER, block, size, size - orig, prev, clear, i);
      GivesBlock(p, St());
      ExpandBrings(m, mem[..], s.l, p, orig, size, n, clear);
    }

    /** Resizes the regular block at p by moving it down to the free block below it. */
    method SlideRoute(p: nat, orig: nat, size: word, n: word, prev: nat, prevPrev: nat, clear: bool, small: bool,
          ghost i: nat) returns (q: nat)
      requires Valid() && LiveAt(layout, p) && layout.tiles[p - HEADER] == Tile(orig + HEADER, Regular)
      requires size == Align8(n) > orig && size % 8 == 0 && orig % 8 == 0 && n <= size <= MAX_REQUEST
      requires !CanExpandUp(layout, p - HEADER, size - orig) && CanSlideDown(layout, p - HEADER, size - orig)
      requires i == Below(layout.free, p - HEADER) && prev == (if i == 0 then 0 else layout.free[i - 1])
      requires prevPrev == (if i < 2 then 0 else layout.free[i - 2])
      modifies this`freeList, this`hwm, this`layout, mem
      ensures Gives(Reallocation(old(St()), p, n, small, config), q, true, St())
      ensures Valid() && Brings(old(mem[..]), mem[..], old(layout), p, q, orig, n, clear)
    {
      hide Layout.Tiled, Layout.Listed, Agrees, Kept, Brings, Shifted, Zeros, Reallocation, Moved, Gives, Align8,
        ExpandUp, SlideDown, CanExpandUp, CanSlideDown, Below;
      ghost var s, m := St(), mem[..];
      GrowCases(s, p, n, orig, size, small, config);
      RoomBelow(s, p - HEADER, size - orig);
      q := MergeWithFreeBlockBelow(p - HEADER, prev, prevPrev, size, orig, clear, i);
      GivesBlock(q, St());
      SlideBrings(m, mem[..], s.l, p, q, orig, size, n, clear);
    }

    /** Resizes the regular block at p by moving it to a new one. */
    method MoveRoute(p: nat, orig: nat, size: word, n: word, clear: bool, small: bool) returns (q: nat, alive: bool)
      requires Valid() && LiveAt(layout, p) && layout.tiles[p - HEADER] == Tile(orig + HEADER, Regular)
      requires size == Align8(n) > orig && size % 8 == 0 && n <= size <= MAX_REQUEST
      requires !CanExpandUp(layout, p - HEADER, size - orig) && !CanSlideDown(layout, p - HEADER, size - orig)
      modifies this, mem
      ensures Gives(Reallocation(old(St()), p, n, small, config), q, alive, St())
      ensures alive ==> Valid() && (mem == old(mem) || fresh(mem))
      ensures alive ==> Brings(old(mem[..]), mem[..], old(layout), p, q, orig, n, clear)
      ensures message == old(message) && metadata == old(metadata)
    {
      ghost var l, m := layout, mem[..];
      GrowCases(St(), p, n, orig, size, small, config);
      hide Layout.Tiled, Layout.Listed, Agrees, Kept, Brings, Reallocation, Moved, Gives, Align8, CanExpandUp,
        CanSlideDown;
      q, alive := MoveBlock(p, orig, size, clear, small);
      if alive { BringsFewer(m, mem[..], l, p, q, orig, size, n, clear); }
    }

    /** Changes the size of the block at p to n bytes, moving it if need be.  0, leaving it, if there is no memory. */
    method Realloc(p: nat, n: word, clear: bool, small: bool) returns (q: nat, alive: bool)
      requires Valid() && (p == 0 || (LiveAt(layout, p) && p < fullSize))
      requires p != 0 && layout.tiles[p - HEADER].kind.Small? ==> n <= MAX_REQUEST
      modifies this, mem
      ensures Gives(if p == 0 then Allocation(old(St()), n, true, config, true)
          else Reallocation(old(St()), p, n, small, config), q, alive, St())
      ensures alive ==> Valid() && (mem == old(mem) || fresh(mem))
      ensures p == 0 && alive ==> Kept(old(mem[..]), mem[..], old(layout), -1)
      ensures p == 0 && alive ==> (q != 0 && clear ==> Cleared(mem[..], layout, q))
      ensures p != 0 && alive ==> Brings(old(mem[..]), mem[..], old(layout), p, q,
          Recorded(old(layout).tiles[p - HEADER]), Asked(n), clear)
      ensures message == old(message) && metadata == old(metadata)
    {
      if p == 0 {
        hide Layout.Tiled, Layout.Listed, Agrees, Kept, Allocation, Gives, Cleared;
        q, alive := Allocate(n, clear, true);
        return;
      }
      LiveWords(mem[..], freeList, bitmaps, layout, p - HEADER);
      ghost var s := St();
      SmallCases(s, p, n, small, config);
      hide Layout.Tiled, Layout.Listed, Agrees, Kept, Brings, Reallocation, Moved, Gives, Get32;
      var sizeWord := Load32(p - HEADER);
      if sizeWord >= FLAG {
        var recorded := sizeWord % 256;
        if small && config.bitmaps && ClassOf(n) == ClassOf(recorded) {
          ResizeInClass(p, recorded, n, clear);
          q, alive := p, true;
        } else {
          q, alive := MoveBlock(p, recorded, n, clear, small);
        }
      } else {
        q, alive := ReallocRegular(p, sizeWord, n, clear, small);
      }
    }

    /** Frees the block at an offset, unless the offset is outside the buffer. */
    method FreeAt(p: nat)
      requires Valid() && (p == 0 || LiveAt(layout, p))
      modifies this`freeList, this`bitmaps, this`layout, mem
      ensures Valid()
      ensures if HEADER <= p <= fullSize - 4
        then St() == Release(old(St()), p) && Kept(old(mem[..]), mem[..], old(layout), p - HEADER)
        else St() == old(St()) && mem[..] == old(mem[..])
    {
      hide Layout.Tiled, Layout.Listed, Agrees, Kept, Release;
      if p >= HEADER && p <= fullSize - 4 {
        Free(p);
      }
    }

    /** The bytes an allocated block's size word records. */
    method DecodeSize(p: nat) returns (n: nat)
      requires Valid() && LiveAt(layout, p)
      ensures n == Recorded(layout.tiles[p - HEADER])
    {
      LiveWords(mem[..], freeList, bitmaps, layout, p - HEADER);
      var w := Load32(p - HEADER);
      n := if w < FLAG then w else w % 256;
    }
  }

  lemma FreeInside(l: Layout, i: nat)
    requires l.Inv() && i < |l.free| && l.start > 0
    ensures l.FreeAt(i) && l.TileOk(l.free[i]) && 0 < l.free[i] <= l.full - HEADER
  {
    assert l.FreeAt(i);
    assert l.TileOk(l.free[i]);
  }

  lemma NextInside(l: Layout, i: nat)
    requires l.Inv() && l.start > 0
    ensures 0 <= LinkAt(l.free, i) < l.full || LinkAt(l.free, i) == 0
  {
    if i < |l.free| { FreeInside(l, i); }
  }

  lemma RestAgrees(m: seq<byte>, r: seq<byte>, head: nat, heads: seq<nat>, l: Layout, i: nat, length: nat)
    requires l.Inv() && Agrees(m, head, heads, l, NONE) && i < |l.free| && l.FreeAt(i)
    requires HEADER <= length <= l.tiles[l.free[i]].len - HEADER && length % 8 == 0
    requires var f := l.free[i] + length;
      && OnlyIn(m, r, f, f + HEADER) && f + HEADER <= |m|
      && Get32(r, f) == l.tiles[l.free[i]].len - length && Get32(r, f + 4) == LinkAt(l.free, i + 1)
    ensures Rest(Hold(l, i), i, l.free[i], length).Inv()
    ensures Agrees(r, head, heads, Rest(Hold(l, i), i, l.free[i], length), i - 1)
    ensures Kept(m, r, l, -1)
  {
    var f := l.free[i];
    assert l.TileOk(f);
    WriteKeeps(m, m, r, l, -1, f, f + length, f + length + HEADER);
    HeldBetween(l, i);
    var h := Hold(l, i);
    GiveAfterCut(h, i, f, length);
    HoldAgrees(m, head, heads, l, NONE, i);
    CutAgrees(m, head, heads, h, i - 1, f, length);
    assert Cut(h, f, length).TileOk(f + length);
    GiveAgrees(m, r, head, heads, Cut(h, f, length), i - 1, i, f + length);
  }

  /** Writing the link of the free block before free block i, or the head, keeps all contents. */
  lemma PrevKeeps(m0: seq<byte>, m: seq<byte>, r: seq<byte>, l: Layout, i: nat)
    requires l.Inv() && Kept(m0, m, l, -1) && i < |l.free| && |m| >= |m0| && |m| == l.full
    requires if i == 0 then r == m else OnlyIn(m, r, l.free[i - 1] + 4, l.free[i - 1] + HEADER)
    ensures Kept(m0, r, l, -1)
  {
    if i > 0 {
      assert l.FreeAt(i - 1) && l.TileOk(l.free[i - 1]);
      WriteKeeps(m0, m, r, l, -1, l.free[i - 1], l.free[i - 1] + 4, l.free[i - 1] + HEADER);
    }
  }

  /** The head of a class list, and the link its first block holds. */
  lemma IdleHeads(m: seq<byte>, head: nat, heads: seq<nat>, l: Layout, c: nat)
    requires l.Inv() && Agrees(m, head, heads, l, NONE) && c < CLASSES && l.start > 0
    ensures heads[c] == LinkAt(l.idle[c], 0) && (heads[c] == 0 <==> l.idle[c] == [])
    ensures l.idle[c] != [] ==> l.IdleAt(c, 0) && heads[c] + ClassSize(c) <= l.full
    ensures l.idle[c] != [] ==> Get32(m, heads[c]) == LinkAt(l.idle[c], 1)
  {
    assert IdleLinkOk(m, heads, l, c, -1) && IdleLinkOk(m, heads, l, c, 0);
    if l.idle[c] != [] { assert l.IdleAt(c, 0) && l.TileOk(l.idle[c][0] - HEADER); }
  }

  lemma NotAllocated(s: State, n: nat, small: bool, cfg: Config, inPlace: bool)
    requires s.Inv() && (n == 0 || s.failed)
    ensures Gives(Allocation(s, n, small, cfg, inPlace), 0, true, s)
  {
  }

  lemma AllocatedSmall(s: State, n: nat, small: bool, cfg: Config, inPlace: bool)
    requires s.Inv() && !s.failed && n > 0 && small && cfg.bitmaps && ClassOf(n) < CLASSES
    ensures Allocation(s, n, small, cfg, inPlace) == AllocateSmall(s, n, cfg)
  {
  }

  /** An allocation that gave nothing. */
  lemma GaveNothing(m: seq<byte>, head: nat, heads: seq<nat>, s: State, n: nat, small: bool, cfg: Config, inPlace: bool,
      t: State)
    requires s.Inv() && n > 0 && t.Inv() && Gives(Allocation(s, n, small, cfg, inPlace), 0, true, t)
    requires Agrees(m, head, heads, t.l, NONE)
    ensures !cfg.movable ==> t.failed && head == 0 && heads == [0, 0, 0, 0]
    ensures cfg.movable && !s.failed ==> n > 0xFFFF_FFF8
  {
    hide Allocation, Layout.Tiled, Layout.Listed;
    AllocationIsOk(s, n, small, cfg, inPlace);
    if !s.failed {
      NoBlockFails(s, n, small, cfg, inPlace);
    } else {
      FailedAllocation(s, n, small, cfg, inPlace);
      FailedIsSpent(s);
    }
    if !cfg.movable || s.failed { SpentHeads(m, head, heads, t); }
  }

  lemma FailedAllocation(s: State, n: nat, small: bool, cfg: Config, inPlace: bool)
    requires s.Inv() && s.failed
    ensures Allocation(s, n, small, cfg, inPlace) == Null(s)
  {
  }

  lemma FailedHeads(m: seq<byte>, head: nat, heads: seq<nat>, t: State)
    requires t.Inv() && t.failed && Agrees(m, head, heads, t.l, NONE)
    ensures head == 0 && heads == [0, 0, 0, 0]
  {
    FailedIsSpent(t);
    SpentHeads(m, head, heads, t);
  }

  lemma SpentHeads(m: seq<byte>, head: nat, heads: seq<nat>, t: State)
    requires Spent(t) && Agrees(m, head, heads, t.l, NONE)
    ensures head == 0 && heads == [0, 0, 0, 0]
  {
    assert LinkOk(m, head, t.l, -1);
    assert forall c: nat {:trigger heads[c]} :: c < 4 ==> IdleLinkOk(m, heads, t.l, c, -1);
  }

  lemma FreeHead(m: seq<byte>, head: nat, heads: seq<nat>, l: Layout)
    requires l.Inv() && Agrees(m, head, heads, l, NONE) && l.start > 0
    ensures head == LinkAt(l.free, 0) && (head == 0 <==> l.free == [])
  {
    assert LinkOk(m, head, l, -1);
    if l.free != [] { FreeInside(l, 0); }
  }

  /** The first free block holds `size` bytes, their size word and the header of a rest. */
  ghost predicate FirstHolds(l: Layout, size: nat) {
    |l.free| > 0 && l.free[0] in l.tiles && l.tiles[l.free[0]].len >= size + 2 * HEADER
  }

  lemma FirstIsFit(s: State, size: nat)
    requires s.Inv() && FirstHolds(s.l, size)
    ensures !s.failed && FirstFit(s.l, size + HEADER, 0) == 0
    ensures !Live(s.l, s.l.free[0])
  {
    assert s.l.FreeAt(0);
  }

  lemma NotFailed(s: State, c: nat)
    requires s.Inv() && c < CLASSES && s.l.idle[c] != []
    ensures !s.failed
  {
  }

  /** With nothing on the class list, the inline cases are down to the first free block. */
  lemma SmallMisses(s: State, n: nat, small: bool, cfg: Config, c: nat)
    requires s.Inv() && 0 < n <= s.l.full && c == (if small && cfg.bitmaps then ClassOf(n) else CLASSES)
    requires c < CLASSES ==> s.l.idle[c] == []
    ensures InlineFits(s, n, small, cfg) <==> FirstHolds(s.l, if c < CLASSES then ClassSize(c) else Align8(n))
    ensures !s.failed && c < CLASSES
        ==> Allocation(s, n, small, cfg, true) == Carve(s, ClassSize(c), Small(n), cfg, true)
    ensures !s.failed && c == CLASSES ==> Allocation(s, n, small, cfg, true) == Carve(s, Align8(n), Regular, cfg, true)
    ensures s.failed ==> !InlineFits(s, n, small, cfg)
    ensures Align8(n) % 8 == 0
  {
    hide Carve;
  }

  lemma KeptInside(m: seq<byte>, r: seq<byte>, l: Layout)
    requires Same(m, r, 0, |m|) && l.Inv() && |m| == l.full
    ensures Kept(m, r, l, -1)
  {
    InsideBuffer(l);
  }

  /** Writing the header of a free block keeps all contents. */
  lemma TileKeeps(m0: seq<byte>, m: seq<byte>, r: seq<byte>, l: Layout, i: nat)
    requires l.Inv() && Kept(m0, m, l, -1) && i < |l.free| && |m| >= |m0|
    requires OnlyIn(m, r, l.free[i], l.free[i] + HEADER)
    ensures Kept(m0, r, l, -1)
  {
    assert l.FreeAt(i) && l.TileOk(l.free[i]);
    WriteKeeps(m0, m, r, l, -1, l.free[i], l.free[i], l.free[i] + HEADER);
  }

  /** Writing past what the buffer was keeps all contents. */
  lemma KeptPast(m0: seq<byte>, m: seq<byte>, r: seq<byte>, l: Layout)
    requires l.Inv() && Kept(m0, m, l, -1) && |m0| == l.full && OnlyIn(m, r, l.full, l.full + HEADER) && |m| >= l.full
    ensures Kept(m0, r, l, -1)
  {
    InsideBuffer(l);
    forall o: nat | Live(l, o) ensures Same(m0, r, o + HEADER, l.End(o)) { assert Same(m0, m, o + HEADER, l.End(o)); }
  }

  lemma LastIs(l: Layout)
    requires l.Inv() && l.start > 0
    ensures l.free != [] ==> l.free[|l.free| - 1] != 0
  {
    if l.free != [] { FreeInside(l, |l.free| - 1); }
  }

  lemma LastKeeps(m0: seq<byte>, m: seq<byte>, r: seq<byte>, l: Layout, k: nat)
    requires l.Inv() && Kept(m0, m, l, -1) && |m| >= |m0| && k == |l.free|
    requires if k == 0 then r == m else OnlyIn(m, r, l.free[k - 1] + 4, l.free[k - 1] + HEADER)
    ensures Kept(m0, r, l, -1)
  {
    if k > 0 {
      assert l.FreeAt(k - 1) && l.TileOk(l.free[k - 1]);
      WriteKeeps(m0, m, r, l, -1, l.free[k - 1], l.free[k - 1] + 4, l.free[k - 1] + HEADER);
    }
  }

  lemma KeptSame(m: seq<byte>, l: Layout)
    ensures Kept(m, m, l, -1)
  {
  }

  lemma KeptOver(m0: seq<byte>, m1: seq<byte>, m2: seq<byte>, l: Layout, g: Layout)
    requires l.Inv() && Kept(m0, m1, l, -1) && Kept(m1, m2, g, -1) && SameLive(l, g)
    requires |m0| == l.full && |m1| == g.full && g.full >= l.full
    ensures Kept(m0, m2, l, -1)
  {
    InsideBuffer(l);
    forall o: nat | Live(l, o) ensures Same(m0, m2, o + HEADER, l.End(o)) {
      assert Same(m0, m1, o + HEADER, l.End(o));
      assert Live(g, o) && Same(m1, m2, o + HEADER, g.End(o));
    }
  }

  /** A block taken by first fit has exactly the bytes asked for: what is left is a multiple of 8. */
  lemma TakenSize(s: State, i: nat, size: nat, cfg: Config)
    requires s.Inv() && !s.failed && size % 8 == 0 && i == FirstFit(s.l, size + HEADER, 0) < |s.l.free|
    ensures var f := s.l.free[i];
      && s.l.FreeAt(i) && !Live(s.l, f) && s.l.TileOk(f)
      && (s.l.tiles[f].len - (size + HEADER) < HEADER ==> s.l.tiles[f].len == size + HEADER)
      && Rest(Hold(s.l, i), i, f, size + HEADER).tiles[f] == Tile(size + HEADER, Lost)
      && Carve(s, size, Regular, cfg, false) == Block(f + HEADER,
           s.(l := Mark(Rest(Hold(s.l, i), i, f, size + HEADER), f, Regular),
             hwm := TakeHwm(s.l, i, size + HEADER, s.hwm, false)))
  {
    assert s.l.FreeAt(i);
    assert s.l.TileOk(s.l.free[i]);
  }

  lemma AlignedAgain(n: nat)
    requires n < 0x1_0000_0000
    ensures Align8(Align8(n)) == Align8(n) && (n > 128 ==> Align8(n) > 128 || Align8(n) == 0)
    ensures Align8(n) < 0x1_0000_0000
  {
  }

  /** A small block is carved as a regular one is, and then given its own size word. */
  lemma CarvedAsSmall(s: State, size: nat, n: nat, cfg: Config)
    requires s.Inv() && !s.failed && ClassOf(n) < CLASSES && size == ClassSize(ClassOf(n)) && s.l.idle[ClassOf(n)] == []
    ensures AllocateSmall(s, n, cfg) == Remarked(Allocation(s, size, false, cfg, true), Small(n))
    ensures CarveOk(s, Allocation(s, size, false, cfg, true), size, Regular)
  {
    hide Carve, CarveOk, Layout.Inv;
    assert Align8(size) == size;
    CarveIsOk(s, size, Regular, cfg, size <= s.l.full);
    CarveTooBig(s, size, Small(n), cfg);
    CarveRemarked(s, size, Small(n), cfg, size <= s.l.full);
  }

  lemma SmallCarved(s: State, r: Outcome, t: State, p: nat, size: nat, n: nat)
    requires CarveOk(s, r, size, Regular) && p != 0 && Gives(r, p, true, t)
    ensures LiveAt(t.l, p) && t.l.tiles[p - HEADER] == Tile(size + HEADER, Regular)
    ensures Keeps(s.l, t.l, -1) && !LiveAt(s.l, p) && s.l.full <= t.l.full
    ensures Gives(Remarked(r, Small(n)), p, true, t.(l := Mark(t.l, p - HEADER, Small(n))))
  {
  }

  lemma SmallNotCarved(s: State, r: Outcome, t: State, p: nat, alive: bool, size: nat, n: nat)
    requires CarveOk(s, r, size, Regular) && (p == 0 || !alive) && Gives(r, p, alive, t)
    ensures Gives(Remarked(r, Small(n)), p, alive, t)
  {
  }

  /** An allocation nothing fits is the same allocation in the grown buffer. */
  lemma GrownAllocation(s: State, n: nat, size: nat, small: bool, cfg: Config)
    requires s.Inv() && !s.failed && 0 < n < 0x1_0000_0000 && size == Align8(n) && cfg.movable
    requires FirstFit(s.l, size + HEADER, 0) == |s.l.free| && !(small && cfg.bitmaps && ClassOf(n) < CLASSES)
    ensures size < 0x1_0000_0000 && Align8(size) == size
    ensures var f := Doubled(2 * s.l.full, size + HEADER); var g := Grow(s.l, f);
      && g.Inv() && g.full == f >= s.l.full && g.start == s.l.start && SameLive(s.l, g)
      && Growths(g, size + HEADER) < Growths(s.l, size + HEADER)
      && Allocation(s, n, small, cfg, false)
           == if f > cfg.limit then Aborted else Allocation(s.(l := g), size, small, cfg, true)
  {
    hide Align8, Layout.Inv, Grow, Growths, SameLive, Carve, FirstFit, Doubled;
    AlignedAgain(n);
    GrownCarve(s, size, cfg);
  }

  lemma GivesAbort(s: State)
    ensures Gives(Aborted, 0, false, s)
  {
  }

  lemma FourHeads(m: seq<byte>, head: nat, heads: seq<nat>, l: Layout)
    requires Agrees(m, head, heads, l, NONE)
    ensures |heads| == CLASSES
  {
  }

  lemma GrownCarve(s: State, size: nat, cfg: Config)
    requires s.Inv() && !s.failed && cfg.movable && FirstFit(s.l, size + HEADER, 0) == |s.l.free|
    ensures var f := Doubled(2 * s.l.full, size + HEADER); var g := Grow(s.l, f);
      && g.Inv() && g.full == f >= s.l.full && f >= size && g.start == s.l.start && SameLive(s.l, g)
      && Growths(g, size + HEADER) < Growths(s.l, size + HEADER)
      && forall b :: Carve(s, size, Regular, cfg, b) == if f > cfg.limit then Aborted
           else if size == 0 then Null(s.(l := g)) else Carve(s.(l := g), size, Regular, cfg, true)
  {
    GrowthsDecrease(s.l, size + HEADER, Doubled(2 * s.l.full, size + HEADER));
    GrowKeeps(s.l, Doubled(2 * s.l.full, size + HEADER));
    hide Layout.Tiled, Layout.Listed, Grow, Take, TakeHwm, Growths, SameLive;
  }

  /** For a block bigger than the buffer it makes no difference whether the inline cases were tried. */
  lemma CarveTooBig(s: State, size: nat, kind: Kind, cfg: Config)
    requires s.Inv() && !s.failed
    ensures Carve(s, size, kind, cfg, size <= s.l.full) == Carve(s, size, kind, cfg, true)
  {
    InsideBuffer(s.l);
  }

  ghost function Remarked(r: Outcome, kind: Kind): Outcome {
    if r.Block? && r.p >= HEADER && r.p - HEADER in r.s.l.tiles
      then r.(s := r.s.(l := Mark(r.s.l, r.p - HEADER, kind))) else r
  }

  lemma TakeRemarked(l: Layout, i: nat, need: nat, kind: Kind)
    requires l.Inv() && i < |l.free| && l.free[i] in l.tiles && need <= l.tiles[l.free[i]].len
    ensures l.free[i] in Take(l, i, need, Regular).tiles
    ensures Take(l, i, need, kind) == Mark(Take(l, i, need, Regular), l.free[i], kind)
  {
    hide Layout.Tiled, Layout.Listed;
    var r := Take(l, i, need, Regular);
    assert Take(l, i, need, kind).tiles == Mark(r, l.free[i], kind).tiles;
  }

  lemma CarveRemarked(s: State, size: nat, kind: Kind, cfg: Config, inPlace: bool)
    requires s.Inv() && !s.failed
    ensures Carve(s, size, kind, cfg, inPlace) == Remarked(Carve(s, size, Regular, cfg, inPlace), kind)
    decreases Growths(s.l, size + HEADER)
  {
    hide Layout.Tiled, Layout.Listed, Doubled, Growths, Take, Mark;
    var need := size + HEADER;
    var i := FirstFit(s.l, need, 0);
    if i < |s.l.free| {
      TakeRemarked(s.l, i, need, kind);
    } else if cfg.movable && Doubled(2 * s.l.full, need) <= cfg.limit && size != 0 {
      GrowthsDecrease(s.l, need, Doubled(2 * s.l.full, need));
      CarveRemarked(s.(l := Grow(s.l, Doubled(2 * s.l.full, need))), size, kind, cfg, true);
    }
  }

  /** Writing in a block allocated since keeps the contents of those that were. */
  lemma NewKeeps(m0: seq<byte>, m: seq<byte>, r: seq<byte>, l: Layout, g: Layout, o: nat, lo: nat, hi: nat)
    requires l.Inv() && g.Inv() && Keeps(l, g, -1) && Kept(m0, m, l, -1) && |m0| == l.full && |m| == g.full >= l.full
    requires o in g.tiles && !Live(l, o) && o <= lo <= hi <= g.End(o) && OnlyIn(m, r, lo, hi)
    ensures Kept(m0, r, l, -1)
  {
    InsideBuffer(l);
    forall x: nat | Live(l, x) ensures Same(m0, r, x + HEADER, l.End(x)) {
      assert g.Apart(x, o) && g.Apart(o, x) && Same(m0, m, x + HEADER, l.End(x));
    }
  }

  /** The tile at o with the free block above it, if it touches that. */
  ghost function UpTo(l: Layout, i: nat, o: nat): Layout {
    if JoinsAbove(l, i, o) then TakeInAbove(l, i, o) else l
  }

  lemma UpToInv(l: Layout, i: nat, o: nat)
    requires l.Inv() && o in l.tiles && l.tiles[o].kind.Lost? && i == Below(l.free, o)
    ensures var u := UpTo(l, i, o); u.Inv() && u.TileOk(o) && u.tiles[o].kind.Lost? && i <= |u.free|
    ensures var u := UpTo(l, i, o); (i > 0 ==> u.free[i - 1] < o) && (i < |u.free| ==> o < u.free[i])
  {
    assert l.TileOk(o) && l.FreeAt(i);
    if JoinsAbove(l, i, o) { TakeInAboveInv(l, i, o); assert TakeInAbove(l, i, o).TileOk(o); }
  }

  /** The free block above o, and that what the merged block's header holds fits in words. */
  lemma AboveHeader(m: seq<byte>, head: nat, heads: seq<nat>, l: Layout, o: nat, i: nat)
    requires l.Inv() && Agrees(m, head, heads, l, NONE) && o in l.tiles && l.tiles[o].kind.Lost?
    requires i == Below(l.free, o) < |l.free|
    ensures l.TileOk(o) && l.FreeAt(i) && o < l.free[i] && l.End(o) <= l.free[i] <= l.full - HEADER
    ensures |m| == l.full < FLAG
    ensures Get32(m, l.free[i]) == l.tiles[l.free[i]].len && Get32(m, l.free[i] + 4) == LinkAt(l.free, i + 1)
    ensures l.End(l.free[i]) <= l.full
  {
    FreeHeader(m, head, heads, l, i);
    assert l.TileOk(o) && l.Apart(o, l.free[i]);
  }

  lemma MergedAbove(m: seq<byte>, r: seq<byte>, head: nat, heads: seq<nat>, l: Layout, o: nat, i: nat)
    requires l.Inv() && Agrees(m, head, heads, l, NONE) && o in l.tiles && l.tiles[o].kind.Lost?
    requires i == Below(l.free, o) < |l.free|
    requires OnlyIn(m, r, o, o + HEADER) && o + HEADER <= |m| && l.free[i] in l.tiles
    requires if l.End(o) == l.free[i]
      then Get32(r, o) == l.tiles[o].len + l.tiles[l.free[i]].len && Get32(r, o + 4) == LinkAt(l.free, i + 1)
      else Get32(r, o) == l.tiles[o].len && Get32(r, o + 4) == l.free[i]
    ensures var u := UpTo(l, i, o);
      && u.Inv() && u.TileOk(o) && u.tiles[o].kind.Lost? && i <= |u.free|
      && Give(u, i, o).Inv() && Give(u, i, o).free[i] == o && Give(u, i, o).start == l.start
        && Give(u, i, o).full == l.full
      && (i > 0 ==> Give(u, i, o).free[i - 1] == l.free[i - 1])
    ensures Agrees(r, head, heads, Give(UpTo(l, i, o), i, o), i - 1)
  {
    AboveHeader(m, head, heads, l, o, i);
    UpToInv(l, i, o);
    GiveInv(UpTo(l, i, o), i, o);
    hide Layout.Tiled, Layout.Listed, Agrees;
    if JoinsAbove(l, i, o) {
      TakeInAboveAgrees(m, r, head, heads, l, i, o);
    } else {
      GiveAgrees(m, r, head, heads, l, NONE, i, o);
    }
  }

  /** Only the header at o and that of the free block below it may differ. */
  ghost predicate TwoHeaders(m: seq<byte>, r: seq<byte>, free: seq<nat>, o: nat, i: nat) {
    && |r| == |m|
    && forall x {:trigger r[x]} :: 0 <= x < |m| && !(o <= x < o + HEADER) && !InBelow(free, i, x) ==> r[x] == m[x]
  }

  ghost predicate InBelow(free: seq<nat>, i: nat, x: int) {
    0 < i <= |free| && free[i - 1] <= x < free[i - 1] + HEADER
  }

  lemma TwoWrites(m: seq<byte>, m1: seq<byte>, r: seq<byte>, l: Layout, o: nat, i: nat)
    requires OnlyIn(m, m1, o, o + HEADER) && i <= |l.free|
    requires if i == 0 then r == m1 else OnlyIn(m1, r, l.free[i - 1] + 4, l.free[i - 1] + HEADER)
    ensures TwoHeaders(m, r, l.free, o, i)
  {
  }

  lemma TwoHeadersKeep(m: seq<byte>, r: seq<byte>, l: Layout, o: nat, i: nat)
    requires l.Inv() && TwoHeaders(m, r, l.free, o, i) && o in l.tiles && |m| == l.full
    ensures Kept(m, r, l, o)
  {
    InsideBuffer(l);
    forall x: nat | Live(l, x) && x != o ensures Same(m, r, x + HEADER, l.End(x)) {
      assert l.Apart(x, o) && l.Apart(o, x);
      if 0 < i <= |l.free| { assert l.FreeAt(i - 1) && l.Apart(x, l.free[i - 1]) && l.Apart(l.free[i - 1], x); }
    }
  }

  lemma MergeWords(m: seq<byte>, head: nat, heads: seq<nat>, u: Layout, i: nat, o: nat)
    requires u.Inv() && o in u.tiles && u.tiles[o].kind.Lost? && 0 < i <= |u.free| && u.free[i - 1] < o
    requires i < |u.free| ==> o < u.free[i]
    requires Agrees(m, head, heads, Give(u, i, o), NONE) && Give(u, i, o).Inv()
    ensures var q := u.free[i - 1];
      && q in u.tiles && q + HEADER <= o && o + HEADER <= |m| && u.TileOk(o) && u.End(q) <= o
      && Get32(m, q) == u.tiles[q].len && Get32(m, o) == u.tiles[o].len && u.tiles[q].len + u.tiles[o].len < FLAG
      && Get32(m, o + 4) == LinkAt(u.free, i)
  {
    var g := Give(u, i, o);
    assert g.free[i - 1] == u.free[i - 1] && g.free[i] == o;
    FreeHeader(m, head, heads, g, i - 1);
    FreeHeader(m, head, heads, g, i);
    assert u.TileOk(u.free[i - 1]) && u.TileOk(o) && u.Apart(u.free[i - 1], o);
  }

  lemma MergedBelow(m: seq<byte>, r: seq<byte>, head: nat, heads: seq<nat>, u: Layout, i: nat, o: nat)
    requires u.Inv() && o in u.tiles && u.tiles[o].kind.Lost? && u.TileOk(o) && JoinsBelow(u, i, o)
    requires (i < |u.free| ==> o < u.free[i])
    requires Agrees(m, head, heads, Give(u, i, o), NONE) && Give(u, i, o).Inv()
    requires var q := u.free[i - 1];
      && OnlyIn(m, r, q, q + HEADER) && q + HEADER <= |m|
      && Get32(r, q) == u.tiles[q].len + u.tiles[o].len && Get32(r, q + 4) == LinkAt(u.free, i)
    ensures JoinBelow(u, i, o).Inv() && Agrees(r, head, heads, JoinBelow(u, i, o), NONE)
  {
    HoldGive(u, i, o);
    HoldAgrees(m, head, heads, Give(u, i, o), NONE, i);
    hide Layout.Tiled, Layout.Listed;
    JoinBelowAgrees(m, r, head, heads, u, i - 1, i, o);
  }

  lemma ThreeWrites(m: seq<byte>, m1: seq<byte>, r: seq<byte>, l: Layout, o: nat, i: nat)
    requires TwoHeaders(m, m1, l.free, o, i) && 0 < i <= |l.free|
    requires r == m1 || OnlyIn(m1, r, l.free[i - 1], l.free[i - 1] + HEADER)
    ensures TwoHeaders(m, r, l.free, o, i)
  {
  }

  lemma InsertCases(l: Layout, o: nat, i: nat)
    requires l.Inv() && o in l.tiles && l.tiles[o].kind.Lost? && i == Below(l.free, o) < |l.free|
    ensures Insert(l, o) == if JoinsBelow(UpTo(l, i, o), i, o)
        then JoinBelow(UpTo(l, i, o), i, o) else Give(UpTo(l, i, o), i, o)
  {
  }

  /** The low word of a block's size word is its length, and the high word is 0. */
  ghost predicate Load32WordsAre(m: seq<byte>, o: nat, length: int) {
    o + HEADER <= |m| && Get32(m, o) == length && Get32(m, o + 4) == 0
  }

  lemma LastWords(m: seq<byte>, head: nat, heads: seq<nat>, l: Layout, o: nat)
    requires l.Inv() && Agrees(m, head, heads, l, NONE) && o in l.tiles && l.tiles[o].kind.Lost?
    requires Below(l.free, o) == |l.free| > 0
    ensures var q := l.free[|l.free| - 1];
      && q in l.tiles && l.TileOk(o) && q + HEADER <= o && o + HEADER <= |m| && Get32(m, q) == l.tiles[q].len
      && l.tiles[q].len + l.tiles[o].len < FLAG && Get32(m, q + 4) == 0
  {
    var i := |l.free| - 1;
    FreeHeader(m, head, heads, l, i);
    assert l.TileOk(o) && l.Apart(l.free[i], o);
  }

  lemma NoLast(l: Layout, o: nat, i: nat)
    requires l.Inv() && o in l.tiles && l.tiles[o].kind.Lost? && i == Below(l.free, o) == |l.free| && l.start > 0
    ensures Insert(l, o) == if JoinsBelow(l, i, o) then (assert l.TileOk(o); JoinBelowShort(l, i, o)) else Give(l, i, o)
    ensures i > 0 ==> l.FreeAt(i - 1) && l.free[i - 1] != 0
  {
    if i > 0 { FreeInside(l, i - 1); }
  }

  lemma RegularReleased(s: State, p: nat)
    requires s.Inv() && !s.failed && LiveAt(s.l, p) && s.l.tiles[p - HEADER].kind.Regular?
    ensures var m := Mark(s.l, p - HEADER, Lost);
        m.Inv() && Release(s, p) == s.(l := Insert(m, p - HEADER))
        && Release(s, p).Inv()
  {
    MarkInv(s.l, p - HEADER, Lost);
    ReleaseIsOk(s, p);
  }

  lemma LiveWords(m: seq<byte>, head: nat, heads: seq<nat>, l: Layout, o: nat)
    requires l.Inv() && Agrees(m, head, heads, l, NONE) && Live(l, o)
    ensures l.TileOk(o) && o + HEADER <= |m| && Get32(m, o) == SizeWord(l.tiles[o]) && Get32(m, o + 4) == 0
    ensures l.tiles[o].kind.Regular? ==> Get32(m, o) < FLAG
    ensures l.tiles[o].kind.Small? ==>
      Get32(m, o) >= FLAG && Get32(m, o) % 256 == l.tiles[o].kind.size && ClassOf(l.tiles[o].kind.size) < CLASSES
  {
    assert HeaderOk(m, l, o) && l.TileOk(o);
  }

  /** A walk of the free list is at free block j, or past its end, having seen the two before it. */
  ghost predicate AtLink(free: seq<nat>, j: nat, block: nat, prev: nat, prevPrev: nat) {
    && j <= |free| && block == LinkAt(free, j) && (block == 0 <==> j == |free|)
    && prev == (if j == 0 then 0 else free[j - 1])
    && prevPrev == (if j < 2 then 0 else free[j - 2])
  }

  ghost predicate AtLink2(free: seq<nat>, j: nat, block: nat, prev: nat) {
    j < |free| && block == free[j] && prev == if j == 0 then 0 else free[j - 1]
  }

  /** Where free block j lies relative to the block at o, which has i free blocks below it. */
  lemma Around(m: seq<byte>, head: nat, heads: seq<nat>, l: Layout, o: nat, i: nat, j: nat)
    requires l.Inv() && Agrees(m, head, heads, l, NONE) && l.start > 0 && Live(l, o) && i == Below(l.free, o)
    requires j < |l.free|
    ensures l.free[j] > o <==> j >= i
    ensures j > i ==> l.free[j] > l.End(o)
    ensures i <= j ==> l.free[j] >= l.End(o)
    ensures j > 0 ==> l.free[j - 1] != 0 && l.FreeAt(j - 1) && l.free[j - 1] + HEADER <= |m|
    ensures j > 0 ==> Get32(m, l.free[j - 1]) == l.tiles[l.free[j - 1]].len
  {
    assert l.FreeAt(j) && l.Apart(o, l.free[j]);
    if i < |l.free| { assert l.FreeAt(i) && l.Apart(o, l.free[i]); }
    if j > 0 { FreeHeader(m, head, heads, l, j - 1); FreeInside(l, j - 1); }
  }

  /** What the free blocks on either side of the block at o have to be. */
  lemma Routes(l: Layout, o: nat, size: nat, more: nat, i: nat)
    requires l.Inv() && Live(l, o) && l.tiles[o].len == size + HEADER && i == Below(l.free, o) <= |l.free|
    ensures i < |l.free| ==> l.FreeAt(i)
    ensures CanExpandUp(l, o, more)
        <==> i < |l.free| && o + HEADER + size == l.free[i] && l.tiles[l.free[i]].len > more + HEADER
    ensures 0 < i ==> l.FreeAt(i - 1)
    ensures CanSlideDown(l, o, more)
        <==> 0 < i < |l.free| && l.End(l.free[i - 1]) == o && l.tiles[l.free[i - 1]].len >= more
  {
    if 0 < i { assert l.FreeAt(i - 1); }
    if i < |l.free| { assert l.FreeAt(i); }
  }

  /** The regular block at o as two, the first of `size` bytes. */
  ghost function SplitAt(l: Layout, o: nat, size: nat): Layout
    requires o in l.tiles && size + HEADER <= l.tiles[o].len
  {
    Mark(Mark(Cut(Mark(l, o, Lost), o, size + HEADER), o, Regular), o + HEADER + size, Regular)
  }

  lemma SplitInv(l: Layout, o: nat, size: nat)
    requires l.Inv() && Live(l, o) && l.tiles[o].kind.Regular? && size % 8 == 0 && size + HEADER < l.tiles[o].len
    ensures l.TileOk(o) && size + 2 * HEADER <= l.tiles[o].len
    ensures Mark(l, o, Lost).Inv() && Cut(Mark(l, o, Lost), o, size + HEADER).Inv() && SplitAt(l, o, size).Inv()
    ensures o + HEADER + size !in l.tiles
  {
    assert l.TileOk(o);
    MarkInv(l, o, Lost);
    CutInv(Mark(l, o, Lost), o, size + HEADER);
    var c := Cut(Mark(l, o, Lost), o, size + HEADER);
    MarkInv(c, o, Regular);
    MarkInv(Mark(c, o, Regular), o + HEADER + size, Regular);
  }

  /** Freeing the second of the two blocks is what Shrink() does. */
  lemma ShrinkIsSplit(s: State, o: nat, size: nat)
    requires s.Inv() && Live(s.l, o) && s.l.tiles[o].kind.Regular? && size % 8 == 0 && size + HEADER < s.l.tiles[o].len
    ensures s.l.TileOk(o) && size + 2 * HEADER <= s.l.tiles[o].len && o + HEADER + size !in s.l.tiles
    ensures var t := s.(l := SplitAt(s.l, o, size)); var p := o + HEADER + size + HEADER;
      && t.Inv() && LiveAt(t.l, p) && Release(t, p) == Shrink(s, o, size)
  {
    SplitInv(s.l, o, size);
    var m := Mark(Cut(Mark(s.l, o, Lost), o, size + HEADER), o, Regular);
    var x := o + HEADER + size;
    assert Mark(Mark(m, x, Regular), x, Lost) == m by { assert m.tiles[x] == Tile(m.tiles[x].len, Lost); }
    hide Insert, Layout.Tiled, Layout.Listed;
  }

  /** Only the headers at a and b may differ. */
  ghost predicate OnlyHeaders(m: seq<byte>, r: seq<byte>, a: nat, b: nat) {
    && |r| == |m|
    && forall x {:trigger r[x]} :: 0 <= x < |m| && !(a <= x < a + HEADER) && !(b <= x < b + HEADER) ==> r[x] == m[x]
  }

  lemma SplitKeeps(m: seq<byte>, m1: seq<byte>, r: seq<byte>, l: Layout, o: nat, size: nat)
    requires l.Inv() && Live(l, o) && l.tiles[o].kind.Regular? && size + 2 * HEADER <= l.tiles[o].len
    requires o + HEADER + size !in l.tiles
    requires OnlyHeaders(m, m1, o, o + HEADER + size) && Kept(m1, r, SplitAt(l, o, size), o + HEADER + size)
    requires |m| == l.full
    ensures Kept(m, r, l, o) && Same(m, r, o + HEADER, o + HEADER + size)
  {
    var s := SplitAt(l, o, size);
    InsideBuffer(l);
    assert Live(s, o) && Same(m1, r, o + HEADER, s.End(o));
    forall x: nat | Live(l, x) && x != o ensures Same(m, r, x + HEADER, l.End(x)) {
      assert Live(s, x) && Same(m1, r, x + HEADER, s.End(x)) && l.Apart(x, o) && l.Apart(o, x);
    }
  }

  lemma MoreIsBlock(l: Layout, i: nat, more: nat)
    requires l.Inv() && i < |l.free| && l.FreeAt(i) && 0 < more && more % 8 == 0
    requires more + HEADER < l.tiles[l.free[i]].len
    ensures HEADER <= more && Rest(Hold(l, i), i, l.free[i], more).Inv() && l.TileOk(l.free[i])
    ensures l.free[i] + more !in l.tiles
  {
    HeldBetween(l, i);
    assert l.TileOk(l.free[i]);
    GiveAfterCut(Hold(l, i), i, l.free[i], more);
  }

  /** ExpandUp(), step by step. */
  lemma ExpandSteps(l: Layout, i: nat, o: nat, more: nat)
    requires l.Inv() && Live(l, o) && l.tiles[o].kind.Regular? && i == Below(l.free, o) && CanExpandUp(l, o, more)
    requires 0 < more && more % 8 == 0 && l.start > 0
    ensures var m := Mark(l, o, Lost); var f := l.free[i];
      && m.Inv() && m.FreeAt(i) && m.End(o) == f && more + HEADER < m.tiles[f].len && l.TileOk(f) && l.TileOk(o)
        && !Live(l, f)
      && o in Rest(Hold(m, i), i, f, more).tiles && Rest(Hold(m, i), i, f, more).tiles[o] == m.tiles[o]
      && Rest(Hold(m, i), i, f, more).tiles[f] == Tile(more, Lost)
      && ExpandUp(l, i, o, more) == Mark(Fuse(Rest(Hold(m, i), i, f, more), o), o, Regular)
      && ExpandUp(l, i, o, more).Inv() && f + more <= l.End(f)
  {
    MarkInv(l, o, Lost);
    var m := Mark(l, o, Lost);
    var f := l.free[i];
    assert m.FreeAt(i) && l.FreeAt(i) && l.TileOk(f) && l.TileOk(o);
    MoreIsBlock(m, i, more);
    var r := Rest(Hold(m, i), i, f, more);
    assert r.tiles[f] == Tile(more, Lost);
    assert Mark(r, f, Lost) == r by { assert Mark(r, f, Lost).tiles == r.tiles; }
    ExpandUpIsOk(l, i, o, more);
  }

  lemma ExpandKeeps(m: seq<byte>, m1: seq<byte>, m2: seq<byte>, r: seq<byte>, l: Layout, o: nat, i: nat, more: nat)
    requires l.Inv() && Live(l, o) && i < |l.free| && l.End(o) == l.free[i] && l.FreeAt(i)
    requires l.free[i] + more + HEADER <= l.End(l.free[i])
    requires |m| == l.full && TwoHeaders(m, m1, l.free, l.free[i] + more, i) && OnlyIn(m1, m2, o, o + HEADER)
    requires OnlyIn(m2, r, l.free[i], l.free[i] + more)
    ensures Kept(m, r, l, -1)
  {
    var f := l.free[i];
    InsideBuffer(l);
    forall x: nat | Live(l, x) ensures Same(m, r, x + HEADER, l.End(x)) {
      assert l.Apart(x, o) && l.Apart(o, x) && l.Apart(x, f) && l.Apart(f, x);
      if i > 0 { assert l.FreeAt(i - 1) && l.Apart(x, l.free[i - 1]) && l.Apart(l.free[i - 1], x); }
    }
  }

  /** The tile SlideDown() moves a block in: the free block below it and the block's own. */
  ghost function SlideTile(l: Layout, i: nat, o: nat): Layout
    requires JoinsBelow(l, i, o) && o in l.tiles
  {
    Fuse(Hold(Mark(l, o, Lost), i - 1), l.free[i - 1])
  }

  /** `k` bytes that were at src are at dst. */
  ghost predicate Shifted(m: seq<byte>, r: seq<byte>, src: nat, dst: nat, k: nat) {
    src + k <= |m| && dst + k <= |r| && forall i {:trigger r[i]} :: dst <= i < dst + k ==> r[i] == m[i - dst + src]
  }

  lemma BelowFlag(m: seq<byte>, head: nat, heads: seq<nat>, l: Layout, k: int)
    requires Agrees(m, head, heads, l, k)
    ensures |m| == l.full < FLAG
  {
  }

  lemma MovedBytesAre(m: seq<byte>, m1: seq<byte>, m2: seq<byte>, f: nat, o: nat, orig: nat)
    requires OnlyIn(m, m1, f, f + HEADER) && f + HEADER <= o && o + HEADER + orig <= |m|
    requires m2 == Move(m1, f + HEADER, o + HEADER, orig)
    ensures Shifted(m, m2, o + HEADER, f + HEADER, orig)
  {
  }

  lemma SlideFrame(m: seq<byte>, m1: seq<byte>, m2: seq<byte>, r: seq<byte>, f: nat, o: nat, orig: nat, size: nat)
    requires OnlyIn(m, m1, f, f + HEADER) && f + HEADER <= o && orig < size && f + HEADER + size <= |m|
    requires o + HEADER + orig <= |m|
    requires m2 == Move(m1, f + HEADER, o + HEADER, orig) && Shifted(m, m2, o + HEADER, f + HEADER, orig)
    requires r == m2 || r == Zero(m2, f + HEADER + orig, size - orig)
    ensures OnlyIn(m, r, f, f + HEADER + size) && Shifted(m, r, o + HEADER, f + HEADER, orig)
    ensures Get32(r, f) == Get32(m1, f) && Get32(r, f + 4) == Get32(m1, f + 4)
    ensures r == Zero(m2, f + HEADER + orig, size - orig) ==> Zeros(r, f + HEADER + orig, f + HEADER + size)
  {
  }

  lemma RestMultiple(g: Layout, i: nat, f: nat, size: nat, remaining: nat)
    requires g.Inv() && f in g.tiles && g.tiles[f] == Tile(size + HEADER + remaining, Lost) && size % 8 == 0
    requires i <= |g.free|
    ensures g.TileOk(f) && (remaining < HEADER ==> remaining == 0) && remaining % 8 == 0
  {
    assert g.TileOk(f);
  }

  lemma CutRestAgrees(m: seq<byte>, r: seq<byte>, head: nat, heads: seq<nat>, g: Layout, i: nat, f: nat, need: nat)
    requires g.Inv() && Agrees(m, head, heads, g, i - 1) && i <= |g.free| && f in g.tiles && g.tiles[f].kind.Lost?
    requires HEADER <= need <= g.tiles[f].len - HEADER && need % 8 == 0
    requires (i > 0 ==> g.free[i - 1] < f) && (i < |g.free| ==> g.End(f) <= g.free[i])
    requires OnlyIn(m, r, f + need, f + need + HEADER) && f + need + HEADER <= |m|
      && Get32(r, f + need) == g.tiles[f].len - need && Get32(r, f + need + 4) == LinkAt(g.free, i)
    ensures Rest(g, i, f, need).Inv() && Agrees(r, head, heads, Rest(g, i, f, need), i - 1)
  {
    GiveAfterCut(g, i, f, need);
    CutAgrees(m, head, heads, g, i - 1, f, need);
    assert Cut(g, f, need).TileOk(f + need);
    GiveAgrees(m, r, head, heads, Cut(g, f, need), i - 1, i, f + need);
  }

  lemma BelowApart(g: Layout, i: nat, f: nat, size: nat, remaining: nat)
    requires g.Inv() && f in g.tiles && g.tiles[f] == Tile(size + HEADER + remaining, Lost) && size % 8 == 0
    requires i <= |g.free|
    requires i > 0 ==> g.free[i - 1] < f
    ensures i > 0 ==> g.free[i - 1] + HEADER <= f
    ensures Rest(g, i, f, size + HEADER).tiles[f] == Tile(size + HEADER, Lost)
  {
    RestMultiple(g, i, f, size, remaining);
    if i > 0 { assert g.FreeAt(i - 1) && g.Apart(g.free[i - 1], f) && g.TileOk(g.free[i - 1]); }
  }

  lemma WordsStay(m: seq<byte>, r: seq<byte>, free: seq<nat>, f: nat, size: nat, i: nat)
    requires Load32WordsAre(m, f, size) && TwoHeaders(m, r, free, f + size + HEADER, i)
    requires 0 < i <= |free| ==> free[i - 1] + HEADER <= f
    ensures Load32WordsAre(r, f, size)
  {
  }

  lemma OneWrite(m: seq<byte>, r: seq<byte>, l: Layout, o: nat, i: nat)
    requires i <= |l.free|
    requires if i == 0 then r == m else OnlyIn(m, r, l.free[i - 1] + 4, l.free[i - 1] + HEADER)
    ensures TwoHeaders(m, r, l.free, o, i)
  {
  }

  /** SlideDown(), step by step. */
  lemma SlideSteps(l: Layout, i: nat, o: nat, size: nat)
    requires l.Inv() && Live(l, o) && l.tiles[o].kind.Regular? && size % 8 == 0 && l.tiles[o].len < size + HEADER
    requires i == Below(l.free, o) && CanSlideDown(l, o, size + HEADER - l.tiles[o].len)
    ensures var f := l.free[i - 1]; var g := SlideTile(l, i, o);
      && f + HEADER <= o && f in g.tiles && g.tiles[f] == Tile(l.tiles[f].len + l.tiles[o].len, Lost) && l.End(f) == o
      && g.free == l.free[..i - 1] + l.free[i..] && LinkAt(g.free, i - 1) == LinkAt(l.free, i)
      && (i > 1 ==> g.free[i - 2] < f && g.free[i - 2] == l.free[i - 2])
        && (i - 1 < |g.free| ==> g.End(f) <= g.free[i - 1])
      && SlideDown(l, i, o, size) == Mark(Rest(g, i - 1, f, size + HEADER), f, Regular)
  {
    hide Layout.Tiled, Layout.Listed, Rest, Mark;
    var f := l.free[i - 1];
    SlideJoin(l, i, o);
    TileAt(l, o);
    TileAt(l, f);
    FuseFree(l, i, o);
  }

  lemma FuseFree(l: Layout, i: nat, o: nat)
    requires l.Inv() && Live(l, o) && JoinsBelow(l, i, o)
    ensures var f := l.free[i - 1]; var g := SlideTile(l, i, o);
      && g.free == l.free[..i - 1] + l.free[i..] && f in g.tiles
        && g.tiles[f] == Tile(l.tiles[f].len + l.tiles[o].len, Lost)
    ensures i > 1 ==> l.free[i - 2] < l.free[i - 1]
  {
    hide Layout.Tiled;
    assert l.FreeAt(i - 1);
  }

  /** What free block i - 1 says, and that a block of `size` bytes from it on is free to hold that at o. */
  lemma SlideWords(m: seq<byte>, head: nat, heads: seq<nat>, l: Layout, i: nat, o: nat, size: nat)
    requires l.Inv() && Live(l, o) && l.tiles[o].kind.Regular? && size % 8 == 0 && l.tiles[o].len < size + HEADER
    requires l.start > 0
    requires i == Below(l.free, o) && CanSlideDown(l, o, size + HEADER - l.tiles[o].len)
    requires Agrees(m, head, heads, l, NONE)
    ensures JoinsBelow(l, i, o) && 0 < i <= |l.free|
    ensures var f := l.free[i - 1];
      f in l.tiles && f + HEADER <= |m| && Get32(m, f) == l.tiles[f].len && Get32(m, f + 4) == LinkAt(l.free, i)
    ensures var f := l.free[i - 1];
      f + HEADER <= o && l.End(f) == o && size + HEADER <= l.tiles[f].len + l.tiles[o].len
  {
    SlideSteps(l, i, o, size);
    FreeHeader(m, head, heads, l, i - 1);
  }

  /** The tile of free block i - 1 and the block after it, off the list, holds a block of `size` bytes and a rest. */
  ghost predicate SlideTo(l: Layout, i: nat, o: nat, size: nat, f: nat, remaining: nat, next: nat, prevPrev: nat) {
    && l.Inv() && Live(l, o) && JoinsBelow(l, i, o) && f == l.free[i - 1] && size % 8 == 0
    && var g := SlideTile(l, i, o);
      && i - 1 <= |g.free| && f in g.tiles && g.tiles[f] == Tile(size + HEADER + remaining, Lost)
        && next == LinkAt(g.free, i - 1)
      && (i > 1 ==> g.free[i - 2] < f) && (i - 1 < |g.free| ==> g.End(f) <= g.free[i - 1])
      && prevPrev == (if i < 2 then 0 else g.free[i - 2])
      && SlideDown(l, i, o, size) == Mark(Rest(g, i - 1, f, size + HEADER), f, Regular)
  }

  lemma SlideIs(l: Layout, i: nat, o: nat, size: nat, orig: nat, remaining: nat, next: nat, prevPrev: nat)
    requires l.Inv() && Live(l, o) && l.tiles[o] == Tile(orig + HEADER, Regular) && size % 8 == 0 && orig < size
    requires l.start > 0
    requires i == Below(l.free, o) && CanSlideDown(l, o, size - orig) && next == LinkAt(l.free, i)
    requires JoinsBelow(l, i, o) && remaining == l.tiles[l.free[i - 1]].len + orig - size
    requires prevPrev == if i < 2 then 0 else l.free[i - 2]
    ensures SlideTo(l, i, o, size, l.free[i - 1], remaining, next, prevPrev)
  {
    hide Layout.Tiled, Layout.Listed, SlideTile, SlideDown, Mark, Rest;
    SlideSteps(l, i, o, size);
  }

  /** The contents of the block at o are now at free block i - 1, before the header of a block of `size` bytes. */
  ghost predicate Slid(m: seq<byte>, m1: seq<byte>, l: Layout, i: nat, o: nat, orig: nat, size: nat, clear: bool) {
    && l.Inv() && Live(l, o) && l.tiles[o].len == orig + HEADER && JoinsBelow(l, i, o) && |m| == l.full
    && size + HEADER <= l.tiles[l.free[i - 1]].len + l.tiles[o].len && orig < size
    && var f := l.free[i - 1];
      && OnlyIn(m, m1, f, f + HEADER + size) && Shifted(m, m1, o + HEADER, f + HEADER, orig)
      && (clear ==> Zeros(m1, f + HEADER + orig, f + HEADER + size))
  }

  lemma SlidIs(m: seq<byte>, m1: seq<byte>, l: Layout, i: nat, o: nat, orig: nat, size: nat, clear: bool)
    requires l.Inv() && Live(l, o) && l.tiles[o].len == orig + HEADER && JoinsBelow(l, i, o) && |m| == l.full
    requires size + HEADER <= l.tiles[l.free[i - 1]].len + l.tiles[o].len && orig < size
    requires OnlyIn(m, m1, l.free[i - 1], l.free[i - 1] + HEADER + size)
    requires Shifted(m, m1, o + HEADER, l.free[i - 1] + HEADER, orig)
    requires clear ==> Zeros(m1, l.free[i - 1] + HEADER + orig, l.free[i - 1] + HEADER + size)
    ensures Slid(m, m1, l, i, o, orig, size, clear)
  {
  }

  lemma SlideKeepsContents(m: seq<byte>, m1: seq<byte>, r: seq<byte>, l: Layout, i: nat, o: nat, orig: nat, size: nat,
        clear: bool)
    requires Slid(m, m1, l, i, o, orig, size, clear)
    requires TwoHeaders(m1, r, SlideTile(l, i, o).free, l.free[i - 1] + size + HEADER, i - 1)
    ensures var f := l.free[i - 1];
      && Kept(m, r, l, o) && Shifted(m, r, o + HEADER, f + HEADER, orig)
        && (clear ==> Zeros(r, f + HEADER + orig, f + HEADER + size))
  {
    forall x: nat | Live(l, x) && x != o ensures Same(m, r, x + HEADER, l.End(x)) {
      SlideSpares(m, m1, r, l, i, o, orig, size, clear, x);
    }
    SlideMoves(m, m1, r, l, i, o, orig, size, clear);
  }

  lemma SlideMoves(m: seq<byte>, m1: seq<byte>, r: seq<byte>, l: Layout, i: nat, o: nat, orig: nat, size: nat,
        clear: bool)
    requires Slid(m, m1, l, i, o, orig, size, clear)
    requires TwoHeaders(m1, r, SlideTile(l, i, o).free, l.free[i - 1] + size + HEADER, i - 1)
    ensures var f := l.free[i - 1];
      |r| == |m| && Shifted(m, r, o + HEADER, f + HEADER, orig)
      && (clear ==> Zeros(r, f + HEADER + orig, f + HEADER + size))
  {
    var f := l.free[i - 1];
    assert l.FreeAt(i - 1) && l.TileOk(f);
    if i > 1 { assert l.FreeAt(i - 2) && l.Apart(l.free[i - 2], f) && l.TileOk(l.free[i - 2]); }
    hide Layout.Tiled, Layout.Listed;
  }

  lemma SlideSpares(m: seq<byte>, m1: seq<byte>, r: seq<byte>, l: Layout, i: nat, o: nat, orig: nat, size: nat,
        clear: bool, x: nat)
    requires Slid(m, m1, l, i, o, orig, size, clear) && Live(l, x) && x != o
    requires TwoHeaders(m1, r, SlideTile(l, i, o).free, l.free[i - 1] + size + HEADER, i - 1)
    ensures Same(m, r, x + HEADER, l.End(x))
  {
    var f := l.free[i - 1];
    assert l.FreeAt(i - 1) && l.TileOk(f) && l.TileOk(x);
    assert l.Apart(x, o) && l.Apart(o, x) && l.Apart(x, f) && l.Apart(f, x);
    if i > 1 {
      assert l.FreeAt(i - 2) && l.TileOk(l.free[i - 2]) && l.Apart(l.free[i - 2], f);
      assert l.Apart(x, l.free[i - 2]) && l.Apart(l.free[i - 2], x);
    }
    hide Layout.Tiled, Layout.Listed;
  }

  /** The largest request that does not wrap to 0 when it is rounded up. */
  const MAX_REQUEST: nat := 0xFFFF_FFF8

  /** How many bytes a request for n is for: rounded up, more than the largest are none. */
  function Asked(n: nat): nat {
    if n <= MAX_REQUEST then n else 0
  }

  /** The block at q starts with the first bytes of what was at p, and is zero past them if asked. */
  ghost predicate Carried(m: seq<byte>, r: seq<byte>, p: nat, q: nat, recorded: nat, n: nat, clear: bool) {
    && Shifted(m, r, p, q, if recorded < n then recorded else n)
    && (clear && recorded < n ==> Zeros(r, q + recorded, q + n))
  }

  /**
  What was in the block at p is at q, for as many bytes as fit, and all other blocks are as they were; or
  nothing is changed, if q is 0.
  */
  ghost predicate Brings(m: seq<byte>, r: seq<byte>, l: Layout, p: nat, q: nat, recorded: int, n: nat, clear: bool) {
    && Kept(m, r, l, if q == 0 then -1 else p - HEADER)
    && (q != 0 ==> recorded >= 0 && Carried(m, r, p, q, recorded, n, clear))
  }

  lemma NotMoved(s: State, p: nat, n: nat, small: bool, cfg: Config, q: nat, alive: bool, t: State)
    requires s.Inv() && LiveAt(s.l, p) && (q == 0 || !alive)
    requires Gives(Allocation(s, n, small, cfg, true), q, alive, t)
    requires AllocationOk(s, Allocation(s, n, small, cfg, true), n)
    ensures Gives(Moved(s, p, n, small, cfg), q, alive, t)
  {
    hide Allocation;
  }

  lemma MovedTo(s: State, p: nat, n: nat, small: bool, cfg: Config, q: nat, t: State)
    requires s.Inv() && LiveAt(s.l, p) && q != 0 && n <= MAX_REQUEST
    requires Gives(Allocation(s, n, small, cfg, true), q, true, t)
    requires AllocationOk(s, Allocation(s, n, small, cfg, true), n)
    ensures t.Inv() && Keeps(s.l, t.l, -1) && LiveAt(t.l, q) && !LiveAt(s.l, q) && LiveAt(t.l, p)
    ensures s.l.full <= t.l.full
    ensures q + n <= t.l.End(q - HEADER)
    ensures forall u :: u == Release(t, p) ==> Gives(Moved(s, p, n, small, cfg), q, true, u)
  {
    Align8Covers(n);
    hide Allocation, Align8;
    assert Live(s.l, p - HEADER);
  }

  lemma BlocksApart(l: Layout, g: Layout, p: nat, q: nat)
    requires l.Inv() && g.Inv() && Keeps(l, g, -1) && LiveAt(l, p) && LiveAt(g, q) && !LiveAt(l, q)
    ensures LiveAt(g, p) && g.tiles[p - HEADER] == l.tiles[p - HEADER] && l.TileOk(p - HEADER)
    ensures p + Recorded(l.tiles[p - HEADER]) <= l.End(p - HEADER) <= l.full && g.End(q - HEADER) <= g.full
    ensures g.End(p - HEADER) <= q - HEADER || g.End(q - HEADER) <= p - HEADER
  {
    assert Live(l, p - HEADER);
    assert l.TileOk(p - HEADER) && g.TileOk(q - HEADER) && g.TileOk(p - HEADER) && g.Apart(p - HEADER, q - HEADER)
      && g.Apart(q - HEADER, p - HEADER);
  }

  lemma Copied(m: seq<byte>, m1: seq<byte>, m2: seq<byte>, r: seq<byte>, l: Layout, g: Layout, p: nat, q: nat,
        recorded: nat, n: nat, clear: bool)
    requires l.Inv() && g.Inv() && Keeps(l, g, -1) && LiveAt(l, p) && LiveAt(g, q) && !LiveAt(l, q)
    requires |m| == l.full <= g.full == |m1|
    requires recorded == Recorded(l.tiles[p - HEADER]) && q + n <= g.End(q - HEADER) <= g.full && Kept(m, m1, l, -1)
    requires p + recorded <= l.full
    requires m2 == Move(m1, q, p, if recorded < n then recorded else n)
    requires r == if clear && n > recorded then Zero(m2, q + recorded, n - recorded) else m2
    ensures OnlyIn(m1, r, q, q + n) && Carried(m, r, p, q, recorded, n, clear)
  {
    BlocksApart(l, g, p, q);
    assert Live(l, p - HEADER) && Same(m, m1, p, l.End(p - HEADER));
  }

  lemma FreedAfter(m: seq<byte>, m1: seq<byte>, m3: seq<byte>, r: seq<byte>, l: Layout, g: Layout, p: nat, q: nat,
        recorded: nat, n: nat, clear: bool)
    requires l.Inv() && g.Inv() && Keeps(l, g, -1) && LiveAt(l, p) && LiveAt(g, q) && !LiveAt(l, q)
    requires |m| == l.full <= g.full == |m1|
    requires q + n <= g.End(q - HEADER) && Kept(m, m1, l, -1) && OnlyIn(m1, m3, q, q + n)
    requires Carried(m, m3, p, q, recorded, n, clear)
    requires Kept(m3, r, g, p - HEADER) && |r| == |m3|
    ensures q != 0 ==> Brings(m, r, l, p, q, recorded, n, clear)
  {
    InsideBuffer(l);
    InsideBuffer(g);
    assert Live(l, p - HEADER) && Live(g, q - HEADER);
    assert Same(m3, r, q, g.End(q - HEADER));
    forall x: nat | Live(l, x) && x != p - HEADER ensures Same(m, r, x + HEADER, l.End(x)) {
      assert Live(g, x) && g.Apart(x, q - HEADER) && g.Apart(q - HEADER, x) && Same(m, m1, x + HEADER, l.End(x))
        && Same(m3, r, x + HEADER, g.End(x));
    }
  }

  lemma ClassRoom(l: Layout, o: nat, recorded: nat, n: nat)
    requires l.Inv() && o in l.tiles && l.tiles[o].kind == Small(recorded) && ClassOf(n) == ClassOf(recorded) < CLASSES
    ensures l.TileOk(o) && n <= 128 && recorded <= 128 && l.tiles[o].len == HEADER + ClassSize(ClassOf(n))
    ensures n <= ClassSize(ClassOf(n))
    ensures Mark(l, o, Lost).Inv() && Mark(l, o, Small(n)).Inv()
    ensures Mark(Mark(l, o, Lost), o, Small(n)) == Mark(l, o, Small(n))
  {
    assert l.TileOk(o);
    MarkInv(l, o, Lost);
    MarkInv(l, o, Small(n));
  }

  lemma InClassBrings(m: seq<byte>, m1: seq<byte>, r: seq<byte>, l: Layout, o: nat, recorded: nat, n: nat, clear: bool)
    requires l.Inv() && o in l.tiles && |m| == l.full && OnlyIn(m, m1, o, o + HEADER)
    requires o + HEADER + n <= l.End(o) && o + HEADER + recorded <= l.End(o)
    requires if clear && n > recorded
      then OnlyIn(m1, r, o + HEADER + recorded, o + HEADER + n) && Zeros(r, o + HEADER + recorded, o + HEADER + n)
      else r == m1
    ensures Brings(m, r, l, o + HEADER, o + HEADER, recorded, n, clear)
  {
    InsideBuffer(l);
    forall x: nat | Live(l, x) && x != o ensures Same(m, r, x + HEADER, l.End(x)) {
      assert l.Apart(x, o) && l.Apart(o, x);
    }
  }

  /** What Reallocation() does to a regular block that is not to grow. */
  lemma RegularCases(s: State, p: nat, n: nat, orig: nat, small: bool, cfg: Config)
    requires s.Inv() && LiveAt(s.l, p) && s.l.tiles[p - HEADER] == Tile(orig + HEADER, Regular)
    requires n < WORD_LIMIT
    ensures s.l.TileOk(p - HEADER) && orig % 8 == 0 && Align8(n) % 8 == 0 && Asked(n) <= Align8(n) <= MAX_REQUEST
    ensures Align8(n) > 0 ==> n <= MAX_REQUEST && Asked(n) == n
    ensures s.l.End(p - HEADER) <= s.l.full
    ensures Align8(n) == orig ==> Reallocation(s, p, n, small, cfg) == Block(p, s)
    ensures Align8(n) < orig ==> Align8(n) + 2 * HEADER <= orig + HEADER
    ensures Align8(n) < orig ==> Reallocation(s, p, n, small, cfg) == Block(p, Shrink(s, p - HEADER, Align8(n)))
  {
    assert s.l.TileOk(p - HEADER);
    Align8Covers(n);
    hide Moved, Layout.Tiled, Layout.Listed, Shrink, ExpandUp, SlideDown, CanExpandUp, CanSlideDown, Below;
  }

  /** What Reallocation() does to a regular block that is to grow. */
  lemma GrowCases(s: State, p: nat, n: nat, orig: nat, size: nat, small: bool, cfg: Config)
    requires s.Inv() && LiveAt(s.l, p) && s.l.tiles[p - HEADER] == Tile(orig + HEADER, Regular)
    requires size == Align8(n) > orig && size % 8 == 0
    ensures var o := p - HEADER; var i := Below(s.l.free, o); var r := Reallocation(s, p, n, small, cfg);
      && (CanExpandUp(s.l, o, size - orig) ==>
        r == Block(p, s.(l := ExpandUp(s.l, i, o, size - orig), hwm := Max(s.hwm, s.l.free[i] + (size - orig)))))
      && (!CanExpandUp(s.l, o, size - orig) && CanSlideDown(s.l, o, size - orig) ==>
        r == Block(s.l.free[i - 1] + HEADER, s.(l := SlideDown(s.l, i, o, size))))
      && (!CanExpandUp(s.l, o, size - orig) && !CanSlideDown(s.l, o, size - orig)
        ==> r == Moved(s, p, size, small, cfg))
  {
    hide Moved, Layout.Tiled, Layout.Listed, ExpandUp, SlideDown, Below, Align8;
  }

  lemma RoomAbove(s: State, o: nat, more: nat)
    requires s.Inv() && CanExpandUp(s.l, o, more)
    ensures o in s.l.tiles && !s.failed && Below(s.l.free, o) < |s.l.free|
    ensures s.l.free[Below(s.l.free, o)] == s.l.End(o) <= s.l.full
  {
    InsideBuffer(s.l);
  }

  lemma RoomBelow(s: State, o: nat, more: nat)
    requires s.Inv() && CanSlideDown(s.l, o, more)
    ensures !s.failed && 0 < Below(s.l.free, o)
  {
  }

  lemma NothingBrought(m: seq<byte>, r: seq<byte>, l: Layout, p: nat, recorded: nat, n: nat, clear: bool)
    requires Kept(m, r, l, -1)
    ensures Brings(m, r, l, p, 0, recorded, n, clear)
  {
  }

  lemma SameBrings(m: seq<byte>, l: Layout, p: nat, orig: nat, n: nat, clear: bool)
    requires p + orig <= |m| && n <= orig
    ensures Brings(m, m, l, p, p, orig, n, clear)
  {
  }

  lemma ShrunkBrings(m: seq<byte>, r: seq<byte>, l: Layout, p: nat, orig: nat, size: nat, n: nat, clear: bool)
    requires Same(m, r, p, p + size) && p + orig <= |m| == |r| && n <= size < orig && Kept(m, r, l, p - HEADER)
    ensures Brings(m, r, l, p, p, orig, n, clear)
  {
  }

  lemma ExpandBrings(m: seq<byte>, r: seq<byte>, l: Layout, p: nat, orig: nat, size: nat, n: nat, clear: bool)
    requires LiveAt(l, p) && l.tiles[p - HEADER].len == orig + HEADER && Kept(m, r, l, -1) && p + orig <= |m| <= |r|
    requires orig < size && n <= size
    requires clear ==> Zeros(r, p + orig, p + size)
    ensures Brings(m, r, l, p, p, orig, n, clear)
  {
    assert Live(l, p - HEADER);
  }

  lemma SlideBrings(m: seq<byte>, r: seq<byte>, l: Layout, p: nat, q: nat, orig: nat, size: nat, n: nat, clear: bool)
    requires Kept(m, r, l, p - HEADER) && q != 0
    requires Shifted(m, r, p, q, orig) && (clear ==> Zeros(r, q + orig, q + size)) && orig < size && n <= size
    ensures Brings(m, r, l, p, q, orig, n, clear)
  {
  }

  lemma BringsFewer(m: seq<byte>, r: seq<byte>, l: Layout, p: nat, q: nat, orig: nat, size: nat, n: nat, clear: bool)
    requires Brings(m, r, l, p, q, orig, size, clear) && orig < size && n <= size
    ensures Brings(m, r, l, p, q, orig, n, clear)
  {
  }

  /** What Reallocation() does to a small block. */
  lemma SmallCases(s: State, p: nat, n: nat, small: bool, cfg: Config)
    requires s.Inv() && LiveAt(s.l, p)
    ensures var k := s.l.tiles[p - HEADER].kind; var r := Reallocation(s, p, n, small, cfg);
      k.Small? ==> if small && cfg.bitmaps && ClassOf(n) == ClassOf(k.size)
        then Gives(r, p, true, s.(l := Mark(s.l, p - HEADER, Small(n))))
        else r == Moved(s, p, n, small, cfg)
  {
    hide Moved, Layout.Tiled, Layout.Listed;
  }

  lemma GivesBlock(p: nat, s: State)
    ensures Gives(Block(p, s), p, true, s)
  {
  }
}
