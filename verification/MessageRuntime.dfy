/**
A message's runtime: the mark of a new buffer, the metadata of the message types used in it, and clearing
the main message by freeing everything allocated since the mark.
*/
module MessageRuntimes {
  import opened Bytes
  import opened Layouts
  import opened HeapSpec
  import opened HeapMemory
  import opened ResetSpec
  import opened ControlGrowth
  import opened PayloadBuffers
  import opened AllocatedBlocks

  const CONTROL_MAGIC: word := 0x52544850
  const CONTROL_VERSION: word := 2
  const CONTROL_SIZE: nat := 40
  const USER_METADATA: nat := 8
  const COUNT: nat := 12
  const CAPACITY: nat := 16
  const ENTRIES: nat := 24
  const ENTRY_SIZE: nat := 16
  const FIELD_DATA: nat := 8

  type Entry = e: seq<byte> | |e| == 16 witness seq(16, _ => 0)

  /** The offset of a type's field table, from its entry. */
  function FieldData(e: Entry): word {
    Get32(e, FIELD_DATA)
  }

  /** The first n entries of the control block at c. */
  function Entries(m: seq<byte>, c: nat, n: nat): (r: seq<Entry>)
    requires c + ENTRIES + ENTRY_SIZE * n <= |m|
    ensures |r| == n
  {
    seq(n, i requires 0 <= i < n => m[c + ENTRIES + ENTRY_SIZE * i..c + ENTRIES + ENTRY_SIZE * (i + 1)])
  }

  /** The entries of the types whose tables lie below the mark, in their order. */
  function KeptEntries(es: seq<Entry>, mark: nat): (r: seq<Entry>)
    ensures |r| <= |es|
  {
    if es == [] then []
    else KeptEntries(es[..|es| - 1], mark) + if FieldData(es[|es| - 1]) < mark then [es[|es| - 1]] else []
  }

  /** An entry is kept if and only if the word for its table is below the mark, and those kept stay in their order. */
  lemma {:induction false} KeptIsFilter(a: seq<Entry>, e: Entry, b: seq<Entry>, mark: nat)
    ensures KeptEntries(a + [e] + b, mark)
      == KeptEntries(a, mark) + (if Get32(e, 8) < mark then [e] else []) + KeptEntries(b, mark)
    decreases |b|
  {
    if b == [] {
      assert a + [e] + b == a + [e] && (a + [e])[..|a|] == a;
    } else {
      var n := |b| - 1;
      assert (a + [e] + b)[..|a| + 1 + n] == a + [e] + b[..n];
      KeptIsFilter(a, e, b[..n], mark);
    }
  }

  /** Whether there is a control block at c, rather than the user's own metadata or none. */
  predicate IsControl(m: seq<byte>, c: nat) {
    && c != 0 && c + CONTROL_SIZE <= |m|
    && Get32(m, c) == CONTROL_MAGIC && Get32(m, c + 4) == CONTROL_VERSION
  }

  function ControlIn(m: seq<byte>, c: nat): Control {
    if IsControl(m, c) then Control(c, Get32(m, c + CAPACITY)) else NoControl
  }

  /** A control block is inside an allocated block of its capacity, and is not full past it. */
  ghost predicate ControlOk(m: seq<byte>, l: Layout, c: nat) {
    IsControl(m, c) ==>
      && |m| == l.full && LiveAt(l, c)
      && c + ENTRIES + ENTRY_SIZE * Get32(m, c + CAPACITY) <= l.End(c - HEADER)
      && Get32(m, c + COUNT) <= Get32(m, c + CAPACITY)
  }

  /** Freeing since the mark would free metadata that stays, or the lists were given up by Finalize(). */
  predicate Refuses(m: seq<byte>, freeList: nat, failed: bool, c: nat, mark: nat) {
    || (freeList == 0 && !failed) || c >= mark || |m| - HEADER < mark
    || (IsControl(m, c) && (c + ENTRIES + ENTRY_SIZE * Get32(m, c + CAPACITY) > mark
      || Get32(m, c + USER_METADATA) >= mark))
  }

  /** The offset of the user's own metadata that a control block at c holds, or 0. */
  function UserMetadataIn(m: seq<byte>, c: nat): nat {
    if IsControl(m, c) then Get32(m, c + 8) else 0
  }

  /**
  A buffer whose lists were not given up, with room for a free block at the mark and nothing that has to stay past it:
  neither the metadata, nor the end of a control block for `capacity` types, nor the user's own.
  */
  ghost predicate MayFree(l: Layout, failed: bool, k: Control, c: nat, user: nat, mark: nat) {
    && (failed || l.free != []) && mark + 8 <= l.full
    && c < mark && user < mark && (k.Control? ==> c + 24 + 16 * k.capacity <= mark)
  }

  /** The buffer is as a reset leaves it, or may be freed from the mark on. */
  ghost predicate MayReset(s: State, head: nat, k: Control, c: nat, user: nat, mark: nat) {
    (head == mark && s.hwm == mark + 8) || MayFree(s.l, s.failed, k, c, user, mark)
  }

  /** The block at u, if there is one, is still there, with its size. */
  ghost predicate BlockStays(l: Layout, g: Layout, u: nat) {
    LiveAt(l, u) ==> LiveAt(g, u) && g.tiles[u - HEADER] == l.tiles[u - HEADER]
  }

  lemma RefusesWhat(m: seq<byte>, head: nat, heads: seq<nat>, l: Layout, failed: bool, c: nat, mark: nat)
    requires l.Inv() && Agrees(m, head, heads, l, NONE) && 0 < l.start && 0 < mark
    ensures !Refuses(m, head, failed, c, mark)
      <==> MayFree(l, failed, ControlIn(m, c), c, UserMetadataIn(m, c), mark)
  {
    FreeHead(m, head, heads, l);
  }

  /** Every allocated block below the mark is still there, and all but two of them hold what they held. */
  ghost predicate StayedBelow(m: seq<byte>, r: seq<byte>, l: Layout, g: Layout, mark: nat, message: nat, c: nat) {
    && |r| == |m|
    && forall o: nat {:trigger Live(l, o)} {:trigger Live(g, o)} ::
      && (Live(g, o) <==> Live(l, o) && o < mark)
      && (Live(g, o) ==> g.tiles[o] == l.tiles[o])
      && (Live(g, o) && o + 8 != message && o + 8 != c ==> Same(m, r, o, l.End(o)))
  }

  lemma EntriesSame(m: seq<byte>, r: seq<byte>, c: nat, n: nat)
    requires c + ENTRIES + ENTRY_SIZE * n <= |m| == |r| && Same(m, r, c + ENTRIES, c + ENTRIES + ENTRY_SIZE * n)
    ensures Entries(m, c, n) == Entries(r, c, n)
  {
    forall i | 0 <= i < n ensures Entries(m, c, n)[i] == Entries(r, c, n)[i] {
      assert ENTRY_SIZE * (i + 1) <= ENTRY_SIZE * n;
    }
  }

  lemma EntriesPrefix(m: seq<byte>, c: nat, n: nat)
    requires c + ENTRIES + ENTRY_SIZE * (n + 1) <= |m|
    ensures Entries(m, c, n + 1) == Entries(m, c, n)
        + [m[c + ENTRIES + ENTRY_SIZE * n..c + ENTRIES + ENTRY_SIZE * (n + 1)]]
  {
  }

  /** One more entry looked at: the entries kept so far are followed by it, or not. */
  lemma KeptOneMore(m0: seq<byte>, m: seq<byte>, r: seq<byte>, c: nat, i: nat, kept: nat, mark: nat)
    requires kept <= i && c + ENTRIES + ENTRY_SIZE * (i + 1) <= |m0| == |m| == |r|
    requires OnlyIn(m0, m, c + ENTRIES, c + ENTRIES + ENTRY_SIZE * kept)
    requires Entries(m, c, kept) == KeptEntries(Entries(m0, c, i), mark)
    requires FieldData(m0[c + ENTRIES + ENTRY_SIZE * i..c + ENTRIES + ENTRY_SIZE * (i + 1)]) < mark
    requires r == Move(m, c + ENTRIES + ENTRY_SIZE * kept, c + ENTRIES + ENTRY_SIZE * i, ENTRY_SIZE)
    ensures OnlyIn(m0, r, c + ENTRIES, c + ENTRIES + ENTRY_SIZE * (kept + 1))
    ensures Entries(r, c, kept + 1) == KeptEntries(Entries(m0, c, i + 1), mark)
  {
    hide Move;
    EntryMoved(m0, m, r, c, i, kept);
    EntriesPrefix(m0, c, i);
    EntriesPrefix(r, c, kept);
    EntriesSame(m, r, c, kept);
    var es := Entries(m0, c, i + 1);
    assert es[..|es| - 1] == Entries(m0, c, i);
  }

  lemma EntryMoved(m0: seq<byte>, m: seq<byte>, r: seq<byte>, c: nat, i: nat, kept: nat)
    requires kept <= i && c + ENTRIES + ENTRY_SIZE * (i + 1) <= |m0| == |m| == |r|
    requires OnlyIn(m0, m, c + ENTRIES, c + ENTRIES + ENTRY_SIZE * kept)
    requires r == Move(m, c + ENTRIES + ENTRY_SIZE * kept, c + ENTRIES + ENTRY_SIZE * i, ENTRY_SIZE)
    ensures r[c + ENTRIES + ENTRY_SIZE * kept..c + ENTRIES + ENTRY_SIZE * (kept + 1)]
         == m0[c + ENTRIES + ENTRY_SIZE * i..c + ENTRIES + ENTRY_SIZE * (i + 1)]
  {
    hide Move;
    var a := c + ENTRIES + ENTRY_SIZE * kept;
    var b := c + ENTRIES + ENTRY_SIZE * i;
    forall k {:trigger r[a + k]} | 0 <= k < ENTRY_SIZE ensures r[a + k] == m0[b + k] { assert r[a + k] == m[b + k]; }
  }

  lemma KeptNotMore(m0: seq<byte>, m: seq<byte>, c: nat, i: nat, kept: nat, mark: nat)
    requires c + ENTRIES + ENTRY_SIZE * (i + 1) <= |m0|
    requires FieldData(m0[c + ENTRIES + ENTRY_SIZE * i..c + ENTRIES + ENTRY_SIZE * (i + 1)]) >= mark
    ensures KeptEntries(Entries(m0, c, i + 1), mark) == KeptEntries(Entries(m0, c, i), mark)
  {
    EntriesPrefix(m0, c, i);
    var es := Entries(m0, c, i + 1);
    assert es[..|es| - 1] == Entries(m0, c, i);
  }

  lemma EntryWord(m0: seq<byte>, m: seq<byte>, c: nat, i: nat, kept: nat)
    requires kept <= i && c + ENTRIES + ENTRY_SIZE * (i + 1) <= |m0| == |m|
    requires OnlyIn(m0, m, c + ENTRIES, c + ENTRIES + ENTRY_SIZE * kept)
    ensures Get32(m, c + ENTRIES + ENTRY_SIZE * i + FIELD_DATA)
         == FieldData(m0[c + ENTRIES + ENTRY_SIZE * i..c + ENTRIES + ENTRY_SIZE * (i + 1)])
  {
    var b := c + ENTRIES + ENTRY_SIZE * i;
    assert m0[b..b + ENTRY_SIZE][FIELD_DATA..] == m[b + FIELD_DATA..b + ENTRY_SIZE];
  }

  lemma ControlInside(m: seq<byte>, l: Layout, c: nat)
    requires l.Inv() && IsControl(m, c) && ControlOk(m, l, c)
    ensures c + ENTRIES + ENTRY_SIZE * Get32(m, c + COUNT) <= c + ENTRIES + ENTRY_SIZE * Get32(m, c + CAPACITY) <= |m|
  {
    assert l.TileOk(c - HEADER);
  }

  lemma SizeIsWord(m: seq<byte>, head: nat, heads: seq<nat>, l: Layout)
    requires Agrees(m, head, heads, l, NONE)
    ensures |m| < FLAG
  {
  }

  lemma NoEntries(m: seq<byte>, c: nat, mark: nat)
    requires c + ENTRIES <= |m|
    ensures Entries(m, c, 0) == [] && KeptEntries([], mark) == []
    ensures OnlyIn(m, m, c + ENTRIES, c + ENTRIES)
  {
  }

  class MessageRuntime {
    const pb: PayloadBuffer
    const isMutable: bool
    var sizeOrMark: nat

    /** The start of the free memory of a new buffer, or 0. */
    function ResetMark(): nat
      reads this
    {
      if isMutable then sizeOrMark else 0
    }

    /** A readonly runtime trusts `size` bytes, clamped to what an offset can reach. */
    constructor (pb: PayloadBuffer, size: nat, isMutable: bool)
      ensures this.pb == pb && this.isMutable == isMutable && ResetMark() == 0
      ensures !isMutable ==> 0 < sizeOrMark < WORD_LIMIT && (0 < size < WORD_LIMIT ==> sizeOrMark == size)
      ensures !isMutable ==> (size == 0 ==> sizeOrMark == 1) && (size >= WORD_LIMIT ==> sizeOrMark == WORD_LIMIT - 1)
    {
      this.pb := pb;
      this.isMutable := isMutable;
      sizeOrMark := if isMutable then 0 else if size < 1 then 1 else if size >= WORD_LIMIT
        then WORD_LIMIT - 1 else size;
    }

    /** Records where the free memory of a new buffer starts, if the buffer is one. */
    method MarkNewBuffer()
      requires pb.Valid()
      modifies this
      ensures sizeOrMark == if isMutable then MarkOf(pb.St()) else old(sizeOrMark)
    {
      if !isMutable {
        return;
      }
      NewBufferWords(pb.mem[..], pb.freeList, pb.bitmaps, pb.St());
      sizeOrMark := 0;
      var c := 0;
      while c < |pb.bitmaps|
        invariant c <= |pb.bitmaps| && sizeOrMark == 0
        invariant forall d :: 0 <= d < c ==> pb.bitmaps[d] == 0
      {
        if pb.bitmaps[c] != 0 {
          return;
        }
        c := c + 1;
      }
      var free := pb.freeList;
      if free == 0 || pb.Load32(free + 4) != 0 || pb.Load32(free) != pb.fullSize - free || pb.hwm != free + HEADER {
        return;
      }
      sizeOrMark := free;
    }

    /** Moves entry i to the kept ones if its table lies below the mark. */
    method KeepEntry(c: nat, i: nat, kept: nat, mark: nat, ghost m0: seq<byte>) returns (k: nat)
      requires kept <= i && c + ENTRIES + ENTRY_SIZE * (i + 1) <= pb.mem.Length == |m0|
      requires OnlyIn(m0, pb.mem[..], c + ENTRIES, c + ENTRIES + ENTRY_SIZE * kept)
      requires Entries(pb.mem[..], c, kept) == KeptEntries(Entries(m0, c, i), mark)
      modifies pb.mem
      ensures k <= i + 1 && OnlyIn(m0, pb.mem[..], c + ENTRIES, c + ENTRIES + ENTRY_SIZE * k)
      ensures Entries(pb.mem[..], c, k) == KeptEntries(Entries(m0, c, i + 1), mark)
    {
      hide Move, KeptEntries, Entries, OnlyIn, FieldData, Get32;
      k := kept;
      EntryWord(m0, pb.mem[..], c, i, kept);
      if pb.Load32(c + ENTRIES + ENTRY_SIZE * i + FIELD_DATA) < mark {
        ghost var m := pb.mem[..];
        pb.MoveBytes(c + ENTRIES + ENTRY_SIZE * kept, c + ENTRIES + ENTRY_SIZE * i, ENTRY_SIZE);
        KeptOneMore(m0, m, pb.mem[..], c, i, kept, mark);
        k := kept + 1;
      } else {
        KeptNotMore(m0, pb.mem[..], c, i, kept, mark);
      }
    }

    /** Moves those of the first n entries whose tables lie below the mark to the front. */
    method KeepEntries(c: nat, n: nat, mark: nat) returns (kept: nat)
      requires c + ENTRIES + ENTRY_SIZE * n <= pb.mem.Length
      modifies pb.mem
      ensures kept <= n && OnlyIn(old(pb.mem[..]), pb.mem[..], c + ENTRIES, c + ENTRIES + ENTRY_SIZE * kept)
      ensures Entries(pb.mem[..], c, kept) == KeptEntries(Entries(old(pb.mem[..]), c, n), mark)
    {
      hide Move, KeptEntries, Entries, OnlyIn;
      ghost var m0 := pb.mem[..];
      kept := 0;
      var i: nat := 0;
      NoEntries(m0, c, mark);
      while i < n
        invariant kept <= i <= n
        invariant OnlyIn(m0, pb.mem[..], c + ENTRIES, c + ENTRIES + ENTRY_SIZE * kept)
        invariant c + ENTRIES + ENTRY_SIZE * kept <= c + ENTRIES + ENTRY_SIZE * i <= |m0|
        invariant Entries(pb.mem[..], c, kept) == KeptEntries(Entries(m0, c, i), mark)
      {
        assert ENTRY_SIZE * (i + 1) <= ENTRY_SIZE * n;
        kept := KeepEntry(c, i, kept, mark, m0);
        i := i + 1;
      }
    }

    /** Removes the control block's entries whose tables lie past the mark. */
    method FilterEntries(c: nat, mark: nat)
      requires pb.Valid() && IsControl(pb.mem[..], c) && ControlOk(pb.mem[..], pb.layout, c)
      modifies pb.mem
      ensures pb.Valid()
      ensures var n := Get32(old(pb.mem[..]), c + COUNT);
        && Filtered(old(pb.mem[..]), pb.mem[..], c, n, mark)
        && OnlyIn(old(pb.mem[..]), pb.mem[..], c + COUNT, c + ENTRIES + ENTRY_SIZE * n)
        && Same(old(pb.mem[..]), pb.mem[..], c + CAPACITY, c + ENTRIES)
    {
      hide Layout.Tiled, Layout.Listed, Agrees, KeptEntries, Filtered, Entries;
      ghost var m0 := pb.mem[..];
      ControlInside(m0, pb.layout, c);
      var n := pb.Load32(c + COUNT);
      var kept := KeepEntries(c, n, mark);
      ghost var m1 := pb.mem[..];
      pb.Store32(c + COUNT, kept);
      FilteredNow(m0, m1, pb.mem[..], c, n, kept, mark);
      ControlWrites(m0, pb.mem[..], pb.freeList, pb.bitmaps, pb.layout, c, n);
    }

    /** Resizes the control block for twice as many types.  False, leaving it as it is, if there is no space. */
    method GrowControl() returns (ok: bool, alive: bool)
      requires pb.Valid() && IsControl(pb.mem[..], pb.metadata) && ControlHolds(pb.mem[..], pb.layout, pb.metadata)
      modifies pb, pb.mem
      ensures GrowsTo(Extension(old(pb.St()), old(Present()), pb.config), old(pb.metadata), ok, alive)
      ensures alive ==> pb.Valid() && (pb.mem == old(pb.mem) || fresh(pb.mem)) && pb.message == old(pb.message)
      ensures alive ==> ControlIs(pb.mem[..], pb.layout, pb.metadata, old(Present()).capacity * (if ok then 2 else 1),
          old(Known()))
    {
      hide Layout.Tiled, Layout.Listed, Agrees, Reallocation, Kept, Carried, Get32, Entries, ControlIs, Room, Passed;
      ghost var s, m, c, es := pb.St(), pb.mem[..], pb.metadata, Known();
      ControlFits(m, pb.freeList, pb.bitmaps, s.l, c);
      var capacity: nat := pb.Load32(pb.metadata + CAPACITY);
      var q;
      q, alive := pb.Realloc(pb.metadata, ControlBytes(2 * capacity), true, true);
      ok := q != 0;
      if !alive {
        return;
      }
      BlockGiven(s, pb.St(), true, true, pb.config, c, q, ControlBytes(2 * capacity), m, pb.mem[..]);
      if q == 0 {
        ControlPassed(m, pb.mem[..], s.l, pb.layout, c);
        return;
      }
      ControlCarried(m, pb.mem[..], pb.freeList, pb.bitmaps, s.l, pb.layout, c, q, capacity);
      ghost var m1 := pb.mem[..];
      pb.Store32(q + CAPACITY, 2 * capacity);
      CapacityWritten(m1, pb.mem[..], pb.freeList, pb.bitmaps, pb.layout, q, capacity, es);
      pb.metadata := q;
    }

    /**
    Adds the entry of a message type, whose field table is at `offset`, doubling a control block that is full.
    Nothing is added if there is no control block, or no space for a larger one.
    */
    method AddMetadata(key: seq<byte>, offset: word) returns (ok: bool, alive: bool)
      requires pb.Valid() && |key| == 8 && ControlHolds(pb.mem[..], pb.layout, pb.metadata)
      modifies pb, pb.mem
      ensures !old(IsControl(pb.mem[..], pb.metadata))
          ==> alive && !ok && pb.St() == old(pb.St()) && pb.mem[..] == old(pb.mem[..])
      ensures old(IsControl(pb.mem[..], pb.metadata)) ==>
        GrowsTo(if old(FullControl()) then Extension(old(pb.St()), old(Present()), pb.config)
          else Block(old(pb.metadata), old(pb.St())),
          old(pb.metadata), ok, alive)
      ensures alive ==> pb.Valid() && (pb.mem == old(pb.mem) || fresh(pb.mem)) && pb.message == old(pb.message)
      ensures alive ==> ControlHolds(pb.mem[..], pb.layout, pb.metadata)
      ensures alive && ok ==>
        ControlAdded(pb.mem[..], pb.metadata, old(Present()).capacity * (if old(FullControl()) then 2 else 1),
          old(Known()), key, offset)
    {
      hide Layout.Tiled, Layout.Listed, Agrees, Reallocation, Get32, Entries, Room, Passed, ControlAdded;
      ok, alive := false, true;
      if !IsControl(pb.mem[..], pb.metadata) {
        return;
      }
      ghost var es, capacity := Known(), Present().capacity;
      ControlFits(pb.mem[..], pb.freeList, pb.bitmaps, pb.layout, pb.metadata);
      ok := true;
      if pb.Load32(pb.metadata + COUNT) == pb.Load32(pb.metadata + CAPACITY) {
        ok, alive := GrowControl();
        if !alive || !ok {
          return;
        }
        capacity := 2 * capacity;
      }
      AddEntry(key, offset, capacity, es);
    }

    /** The control block is full. */
    ghost predicate FullControl()
      requires IsControl(pb.mem[..], pb.metadata)
      reads pb, pb.mem
    {
      Get32(pb.mem[..], pb.metadata + COUNT) == Get32(pb.mem[..], pb.metadata + CAPACITY)
    }

    /** Writes one more entry and the count. */
    method AddEntry(key: seq<byte>, offset: word, ghost capacity: nat, ghost es: seq<Entry>)
      requires pb.Valid() && |key| == 8 && ControlIs(pb.mem[..], pb.layout, pb.metadata, capacity, es)
          && |es| < capacity
      modifies pb.mem
      ensures pb.Valid() && pb.St() == old(pb.St()) && pb.mem == old(pb.mem)
          && ControlHolds(pb.mem[..], pb.layout, pb.metadata)
      ensures ControlAdded(pb.mem[..], pb.metadata, capacity, es, key, offset)
    {
      hide Layout.Tiled, Layout.Listed, Agrees, Get32, Entries, Room, ControlAdded;
      ghost var m, c := pb.mem[..], pb.metadata;
      ControlFits(m, pb.freeList, pb.bitmaps, pb.layout, c);
      var n: nat := pb.Load32(pb.metadata + COUNT);
      var o := pb.metadata + ENTRIES + ENTRY_SIZE * n;
      pb.StoreBytes(o, key);
      ghost var m1 := pb.mem[..];
      pb.Store32(o + FIELD_DATA, offset);
      ghost var m2 := pb.mem[..];
      pb.Store32(pb.metadata + COUNT, n + 1);
      EntryAdded(m, m1, m2, pb.mem[..], pb.freeList, pb.bitmaps, pb.layout, c, capacity, es, key, offset);
    }

    /** What growing the control block leaves of the heap, and where it is. */
    ghost predicate GrowsTo(r: Outcome, was: nat, ok: bool, alive: bool)
      reads pb
    {
      match r
      case Block(q, t) => alive && ok && pb.St() == t && pb.metadata == q
      case Null(t) => alive && !ok && pb.St() == t && pb.metadata == was
      case Aborted => !alive
    }

    /** The control block's entries. */
    ghost function Known(): seq<Entry>
      requires IsControl(pb.mem[..], pb.metadata)
      requires pb.metadata + ENTRIES + ENTRY_SIZE * Get32(pb.mem[..], pb.metadata + COUNT) <= pb.mem.Length
      reads pb, pb.mem
    {
      Entries(pb.mem[..], pb.metadata, Get32(pb.mem[..], pb.metadata + COUNT))
    }

    /** Makes everything from the mark on one free block and empties the class lists. */
    method FreePast(mark: nat)
      requires pb.Valid() && mark in pb.layout.tiles && 0 < mark && mark + HEADER <= pb.fullSize
      modifies pb, pb.mem
      ensures pb.Valid() && pb.mem == old(pb.mem) && pb.message == old(pb.message) && pb.metadata == old(pb.metadata)
      ensures pb.St() == State(ResetLayout(old(pb.layout), mark), mark + HEADER, false)
      ensures OnlyIn(old(pb.mem[..]), pb.mem[..], mark, mark + HEADER)
    {
      hide Layout.Tiled, Layout.Listed, Agrees;
      SizeIsWord(pb.mem[..], pb.freeList, pb.bitmaps, pb.layout);
      pb.StoreHeader(mark, pb.fullSize - mark, 0);
      ResetAgrees(old(pb.mem[..]), pb.mem[..], pb.freeList, pb.bitmaps, pb.layout, mark);
      pb.freeList := mark;
      pb.hwm := mark + HEADER;
      pb.bitmaps := [0, 0, 0, 0];
      pb.failed := false;
      pb.layout := ResetLayout(pb.layout, mark);
    }

    /** Whether nothing that stays has reached past the mark. */
    method MayFreeSinceMark() returns (may: bool)
      requires pb.Valid() && isMutable && ControlOk(pb.mem[..], pb.layout, pb.metadata)
      ensures may == !Refuses(pb.mem[..], pb.freeList, pb.failed, pb.metadata, sizeOrMark)
    {
      hide Layout.Tiled, Layout.Listed, Agrees;
      var mark := sizeOrMark;
      if (pb.freeList == 0 && !pb.failed) || pb.metadata >= mark || pb.fullSize - HEADER < mark {
        return false;
      }
      if IsControl(pb.mem[..], pb.metadata) {
        ControlInside(pb.mem[..], pb.layout, pb.metadata);
        return pb.metadata + ENTRIES + ENTRY_SIZE * pb.Load32(pb.metadata + CAPACITY) <= mark
          && pb.Load32(pb.metadata + USER_METADATA) < mark;
      }
      may := true;
    }

    /** Frees everything allocated since the mark, if nothing that stays has reached past it. */
    method FreeSinceMark() returns (done: bool)
      requires pb.Valid() && isMutable && 0 < sizeOrMark && ControlOk(pb.mem[..], pb.layout, pb.metadata)
      requires !Refuses(pb.mem[..], pb.freeList, pb.failed, pb.metadata, sizeOrMark) ==> sizeOrMark in pb.layout.tiles
      modifies pb, pb.mem
      ensures pb.Valid() && pb.mem == old(pb.mem) && pb.message == old(pb.message) && pb.metadata == old(pb.metadata)
      ensures done == !Refuses(old(pb.mem[..]), old(pb.freeList), old(pb.failed), pb.metadata, sizeOrMark)
      ensures done <==>
        MayFree(old(pb.layout), old(pb.failed), old(Present()), pb.metadata, old(UserMetadata()), sizeOrMark)
      ensures done ==>
        StayedBelow(old(pb.mem[..]), pb.mem[..], old(pb.layout), pb.layout, sizeOrMark, 0, pb.metadata)
      ensures !done ==> pb.St() == old(pb.St()) && pb.mem[..] == old(pb.mem[..])
      ensures done ==> pb.St() == State(ResetLayout(old(pb.layout), sizeOrMark), sizeOrMark + HEADER, false)
      ensures done ==> MetadataFiltered(old(pb.mem[..]), pb.mem[..], pb.metadata, sizeOrMark)
    {
      hide Layout.Tiled, Layout.Listed, Agrees, Filtered, MetadataFiltered, Refuses;
      ghost var m := pb.mem[..];
      RefusesWhat(m, pb.freeList, pb.bitmaps, pb.layout, pb.failed, pb.metadata, sizeOrMark);
      done := MayFreeSinceMark();
      if !done {
        return;
      }
      AllowedMeans(m, pb.layout, pb.freeList, pb.failed, pb.metadata, sizeOrMark);
      ghost var l := pb.layout;
      if IsControl(pb.mem[..], pb.metadata) {
        FilterEntries(pb.metadata, sizeOrMark);
      }
      ghost var m1 := pb.mem[..];
      FreePast(sizeOrMark);
      MetadataFilteredNow(m, m1, pb.mem[..], pb.metadata, sizeOrMark);
      FilteredBelow(m, pb.mem[..], l, pb.metadata, sizeOrMark);
    }

    /** The offset of the user's own metadata. */
    function UserMetadata(): nat
      reads pb, pb.mem
    {
      UserMetadataIn(pb.mem[..], pb.metadata)
    }

    /** The control block there is. */
    ghost function Present(): Control
      reads pb, pb.mem
    {
      ControlIn(pb.mem[..], pb.metadata)
    }

    /**
    Frees everything allocated since the buffer was new and empties its main message but for its metadata.
    `ops` is the run since the buffer, and its control block, were as in x0, newly marked; `filtered` is the
    memory before the message was emptied.
    */
    method ResetFor(message: nat, binarySize: nat, ghost x0: Pair, ghost ops: seq<MetaOp>)
      returns (done: bool, ghost filtered: seq<byte>)
      requires pb.Valid() && ControlOk(pb.mem[..], pb.layout, pb.metadata)
      requires ResetMark() != 0 ==> SinceMark(x0, ops, pb.config, sizeOrMark, Pair(pb.St(), Present()))
      requires ResetMark() != 0 && message == pb.message ==> MainMessage(pb.layout, message, binarySize, sizeOrMark)
      modifies pb, pb.mem
      ensures pb.Valid() && pb.mem == old(pb.mem) && pb.message == old(pb.message) && pb.metadata == old(pb.metadata)
      ensures var idle := old(pb.freeList) == sizeOrMark && old(pb.hwm) == sizeOrMark + HEADER;
        && done == (ResetMark() != 0 && message == pb.message
                    && (idle || !Refuses(old(pb.mem[..]), old(pb.freeList), old(pb.failed), pb.metadata, sizeOrMark)))
        && (done ==> if idle then filtered == old(pb.mem[..])
          else MetadataFiltered(old(pb.mem[..]), filtered, pb.metadata, sizeOrMark))
      ensures var user := old(UserMetadata());
        var may := MayReset(old(pb.St()), old(pb.freeList), old(Present()), pb.metadata, user, sizeOrMark);
        done <==> ResetMark() != 0 && message == pb.message && may
      ensures done ==>
        StayedBelow(old(pb.mem[..]), pb.mem[..], old(pb.layout), pb.layout, sizeOrMark, message, pb.metadata)
      ensures done ==> BlockStays(old(pb.layout), pb.layout, old(UserMetadata()))
      ensures done ==> !old(Present()).Strayed(sizeOrMark) && sizeOrMark <= pb.fullSize
      ensures done ==> pb.St() == Restored(Rebased(x0.s, old(Present())), sizeOrMark, pb.fullSize)
      ensures done ==> Zeros(pb.mem[..], message + 4, message + binarySize)
      ensures done ==> OnlyIn(filtered, pb.mem[..], message + 4, message + binarySize)
      ensures done && (pb.metadata == 0 || (old(Present()).Control? && message != pb.metadata)) ==>
          MayResetAgain(pb.mem[..], pb.St(), pb.metadata, pb.config, sizeOrMark, message, binarySize)
      ensures !done ==> pb.St() == old(pb.St()) && pb.mem[..] == old(pb.mem[..])
    {
      hide Layout.Tiled, Layout.Listed, Agrees, Filtered, MetadataFiltered, Restored, ResetLayout, SinceMark, Refuses,
        ControlOk, Rebased, IsControl, Control.Strayed, MayResetAgain;
      filtered := pb.mem[..];
      if ResetMark() == 0 || message != pb.message {
        return false, filtered;
      }
      ghost var m, s, k, u := pb.mem[..], pb.St(), Present(), UserMetadata();
      SinceMarkRestores(x0, ops, pb.config, sizeOrMark, s, k);
      RefusesWhat(m, pb.freeList, pb.bitmaps, pb.layout, pb.failed, pb.metadata, sizeOrMark);
      RefusesStrayed(m, pb.freeList, pb.failed, pb.metadata, sizeOrMark);
      FreeHead(m, pb.freeList, pb.bitmaps, pb.layout);
      if pb.freeList != sizeOrMark || pb.hwm != sizeOrMark + HEADER {
        done := FreeSinceMark();
        filtered := pb.mem[..];
        if !done {
          return;
        }
      } else {
        IdleBelow(m, s, Rebased(x0.s, k), sizeOrMark, pb.metadata);
      }
      MainMessageStays(Rebased(x0.s, k), s, sizeOrMark, message, binarySize);
      pb.ZeroIn(message - HEADER, message + 4, binarySize - 4);
      ClearedBelow(m, filtered, pb.mem[..], s.l, pb.layout, sizeOrMark, message, binarySize, pb.metadata);
      UserBlockStays(m, pb.mem[..], s.l, pb.layout, sizeOrMark, message, pb.metadata, u);
      done := true;
      if pb.metadata == 0 || (k.Control? && message != pb.metadata) {
        ResetAgain(m, filtered, pb.mem[..], pb.metadata, x0, ops, pb.config, sizeOrMark, s, message, binarySize);
      }
    }
  }

  // ---- Resetting again ----

  /** The buffer is one that a run ResetFor() undoes can start from, with the same main message. */
  ghost predicate MayResetAgain(m: seq<byte>, s: State, c: nat, cfg: Config, mark: nat, message: nat, binarySize: nat) {
    && s.Inv() && ControlOk(m, s.l, c) && MainMessage(s.l, message, binarySize, mark)
    && SinceMark(Pair(s, ControlIn(m, c)), [], cfg, mark, Pair(s, ControlIn(m, c)))
  }

  lemma ResetAgain(m: seq<byte>, f: seq<byte>, r: seq<byte>, c: nat, x0: Pair, ops: seq<MetaOp>, cfg: Config, mark: nat,
      s: State, message: nat, binarySize: nat)
    requires s.Inv() && |m| == |f| == |r| == s.l.full && SinceMark(x0, ops, cfg, mark, Pair(s, ControlIn(m, c)))
    requires ControlOk(m, s.l, c) && MainMessage(s.l, message, binarySize, mark)
    requires c == 0 || (ControlIn(m, c).Control? && message != c)
    requires !ControlIn(m, c).Strayed(mark) && mark <= s.l.full
    requires f == m || MetadataFiltered(m, f, c, mark)
    requires OnlyIn(f, r, message + 4, message + binarySize)
    ensures var restored := Restored(Rebased(x0.s, ControlIn(m, c)), mark, s.l.full);
      MayResetAgain(r, restored, c, cfg, mark, message, binarySize)
  {
    hide Layout.Tiled, Layout.Listed, Filtered, MetadataFiltered, Restored, ControlOk, Rebased, IsControl, Begins,
      MetaRuns, MetaRun, ControlIn, MainMessage, OnlyIn, Control.Strayed;
    SinceMarkRestores(x0, ops, cfg, mark, s, ControlIn(m, c));
    ResetBeginsAgain(x0, ops, cfg, mark, true);
    ControlKept(m, f, r, s.l, c, mark, message, binarySize);
    var b := Rebased(x0.s, ControlIn(m, c));
    MessageThere(b, s, mark, message, binarySize);
    ControlThere(m, r, b, s, mark, c);
    NoRun(Pair(Restored(b, mark, s.l.full), ControlIn(m, c)), cfg, mark);
  }

  lemma NoRun(x: Pair, cfg: Config, mark: nat)
    requires x.s.Inv()
    ensures MetaRuns(x.s.l, x.control, x, [], cfg, mark, true) && MetaRun(x.s.l, x.control, x, [], cfg, mark, true) == x
  {
  }

  lemma MessageThere(b: State, s: State, mark: nat, message: nat, binarySize: nat)
    requires Fixed(b.l, s.l, mark) && MainMessage(s.l, message, binarySize, mark) && mark <= s.l.full
    ensures MainMessage(Restored(b, mark, s.l.full).l, message, binarySize, mark)
  {
  }

  /** The control block's first words stay, and it has no more entries than it had. */
  lemma ControlKept(m: seq<byte>, f: seq<byte>, r: seq<byte>, l: Layout, c: nat, mark: nat, message: nat,
      binarySize: nat)
    requires l.Inv() && |m| == |f| == |r| == l.full && ControlOk(m, l, c) && MainMessage(l, message, binarySize, mark)
    requires c == 0 || (ControlIn(m, c).Control? && message != c)
    requires f == m || MetadataFiltered(m, f, c, mark)
    requires OnlyIn(f, r, message + 4, message + binarySize)
    ensures ControlIn(r, c) == ControlIn(m, c)
    ensures c != 0 ==> c + CONTROL_SIZE <= |r| && Get32(r, c + COUNT) <= Get32(m, c + COUNT)
  {
    hide Layout.Tiled, Layout.Listed, Get32;
    if c != 0 {
      ControlInside(m, l, c);
      TilesApart(l, c - HEADER, message - HEADER);
      if f != m { FilteredWords(m, f, c, mark); }
      SameWords(f, r, c, c, ENTRIES);
    }
  }

  lemma FilteredWords(m: seq<byte>, f: seq<byte>, c: nat, mark: nat)
    requires IsControl(m, c) && MetadataFiltered(m, f, c, mark)
    ensures Get32(f, c) == Get32(m, c) && Get32(f, c + 4) == Get32(m, c + 4)
    ensures Get32(f, c + CAPACITY) == Get32(m, c + CAPACITY) && Get32(f, c + COUNT) <= Get32(m, c + COUNT)
  {
    hide Get32, KeptEntries, Entries;
    SameWord(m, f, 0, c + COUNT, c);
    SameWord(m, f, 0, c + COUNT, c + 4);
    SameWord(m, f, c + CAPACITY, c + ENTRIES, c + CAPACITY);
  }

  lemma ControlThere(m: seq<byte>, r: seq<byte>, b: State, s: State, mark: nat, c: nat)
    requires s.Inv() && Fixed(b.l, s.l, mark) && mark <= s.l.full && |r| == |m| == s.l.full && ControlOk(m, s.l, c)
    requires ControlIn(r, c) == ControlIn(m, c) && !ControlIn(m, c).Strayed(mark)
    requires c != 0 ==> c + CONTROL_SIZE <= |r| && Get32(r, c + COUNT) <= Get32(m, c + COUNT)
    ensures ControlOk(r, Restored(b, mark, s.l.full).l, c)
  {
    hide Layout.Tiled, Layout.Listed, Get32;
    if IsControl(m, c) {
      assert Live(s.l, c - HEADER);
    }
  }

  // ---- The control block grows ----

  /** A control block was allocated with room for its capacity, and is not full past it. */
  ghost predicate ControlHolds(m: seq<byte>, l: Layout, c: nat) {
    IsControl(m, c) ==>
      && |m| == l.full && 0 < Get32(m, c + CAPACITY) && Room(l, c, ControlBytes(Get32(m, c + CAPACITY)))
      && Get32(m, c + COUNT) <= Get32(m, c + CAPACITY) && c + ENTRIES + ENTRY_SIZE * Get32(m, c + COUNT) <= |m|
  }

  /** A control block of this capacity with these entries. */
  ghost predicate ControlIs(m: seq<byte>, l: Layout, c: nat, capacity: nat, es: seq<Entry>) {
    && IsControl(m, c) && ControlHolds(m, l, c) && Get32(m, c + CAPACITY) == capacity
    && Get32(m, c + COUNT) == |es| && c + ENTRIES + ENTRY_SIZE * |es| <= |m| && Entries(m, c, |es|) == es
  }

  lemma ControlFits(m: seq<byte>, head: nat, heads: seq<nat>, l: Layout, c: nat)
    requires l.Inv() && Agrees(m, head, heads, l, NONE) && IsControl(m, c) && ControlHolds(m, l, c)
    ensures LiveAt(l, c) && c < |m| == l.full && ControlBytes(2 * Get32(m, c + CAPACITY)) <= MAX_REQUEST
    ensures c + ControlBytes(Get32(m, c + CAPACITY)) <= |m|
    ensures ControlBytes(Get32(m, c + CAPACITY)) <= Recorded(l.tiles[c - HEADER])
    ensures ControlIs(m, l, c, Get32(m, c + CAPACITY), Entries(m, c, Get32(m, c + COUNT)))
  {
    RoomInside(l, c, ControlBytes(Get32(m, c + CAPACITY)));
  }

  lemma ControlPassed(m: seq<byte>, r: seq<byte>, l: Layout, g: Layout, c: nat)
    requires l.Inv() && Passed(m, r, l, g, -1) && IsControl(m, c) && ControlHolds(m, l, c)
    ensures ControlIs(r, g, c, Get32(m, c + CAPACITY), Entries(m, c, Get32(m, c + COUNT)))
  {
    hide Layout.Tiled, Layout.Listed, Passed, Entries, Get32;
    var n, k := Get32(m, c + CAPACITY), Get32(m, c + COUNT);
    PassedRoom(m, r, l, g, -1, c, ControlBytes(n));
    PassedSizes(m, r, l, g, -1);
    ControlMoved(m, r, c, c, ControlBytes(n), k);
    SameWords(m, r, c, c, ControlBytes(n));
  }

  /** A control block's words and entries, wherever its bytes are. */
  lemma SameWords(m: seq<byte>, r: seq<byte>, c: nat, q: nat, n: nat)
    requires c + n <= |m| && q + n <= |r| && 24 <= n && Shifted(m, r, c, q, n)
    ensures Get32(r, q) == Get32(m, c) && Get32(r, q + 4) == Get32(m, c + 4)
    ensures Get32(r, q + COUNT) == Get32(m, c + COUNT) && Get32(r, q + CAPACITY) == Get32(m, c + CAPACITY)
  {
    assert forall i {:trigger r[q + i]} :: 0 <= i < 24 ==> r[q + i] == m[q + i - q + c];
  }

  lemma ControlMoved(m: seq<byte>, r: seq<byte>, c: nat, q: nat, n: nat, k: nat)
    requires c + n <= |m| && q + n <= |r| && ENTRIES + ENTRY_SIZE * k <= n && Shifted(m, r, c, q, n)
    ensures Entries(r, q, k) == Entries(m, c, k)
  {
    forall i | 0 <= i < k ensures Entries(r, q, k)[i] == Entries(m, c, k)[i] { EntryAt(m, r, c, q, n, k, i); }
  }

  lemma EntryAt(m: seq<byte>, r: seq<byte>, c: nat, q: nat, n: nat, k: nat, i: nat)
    requires c + n <= |m| && q + n <= |r| && ENTRIES + ENTRY_SIZE * k <= n && Shifted(m, r, c, q, n) && i < k
    ensures Entries(r, q, k)[i] == Entries(m, c, k)[i]
  {
    var o := ENTRIES + ENTRY_SIZE * i;
    assert o + ENTRY_SIZE <= n;
    var e := r[q + o..q + o + ENTRY_SIZE];
    forall x | 0 <= x < ENTRY_SIZE
      ensures e[x] == m[c + o..c + o + ENTRY_SIZE][x] { assert r[q + o + x] == m[q + o + x - q + c]; }
  }

  /** A control block's words, at q. */
  ghost predicate ControlAt(m: seq<byte>, q: nat, capacity: nat, es: seq<Entry>) {
    && IsControl(m, q) && Get32(m, q + CAPACITY) == capacity && Get32(m, q + COUNT) == |es|
    && q + ENTRIES + ENTRY_SIZE * |es| <= |m| && Entries(m, q, |es|) == es
  }

  lemma ControlCarried(m: seq<byte>, r: seq<byte>, head: nat, heads: seq<nat>, l: Layout, g: Layout, c: nat, q: nat,
      capacity: nat)
    requires l.Inv() && g.Inv() && IsControl(m, c) && ControlHolds(m, l, c) && capacity == Get32(m, c + CAPACITY)
        && q != 0
    requires Brings(m, r, l, c, q, Recorded(l.tiles[c - HEADER]), ControlBytes(2 * capacity), true)
    requires Room(g, q, ControlBytes(2 * capacity)) && Agrees(r, head, heads, g, NONE)
    ensures q + ControlBytes(2 * capacity) <= |r| == g.full && 2 * capacity < WORD_LIMIT && q < WORD_LIMIT
    ensures ControlAt(r, q, capacity, Entries(m, c, Get32(m, c + COUNT)))
  {
    hide Layout.Tiled, Layout.Listed, Entries, Get32, Kept;
    RoomInside(l, c, ControlBytes(capacity));
    RoomInside(g, q, ControlBytes(2 * capacity));
    ControlMoved(m, r, c, q, ControlBytes(capacity), Get32(m, c + COUNT));
    SameWords(m, r, c, q, ControlBytes(capacity));
  }

  lemma CapacityWritten(m: seq<byte>, r: seq<byte>, head: nat, heads: seq<nat>, g: Layout, q: nat, capacity: nat,
      es: seq<Entry>)
    requires g.Inv() && Agrees(m, head, heads, g, NONE) && ControlAt(m, q, capacity, es) && |es| <= capacity
        && 0 < capacity
    requires Room(g, q, ControlBytes(2 * capacity)) && q + ControlBytes(2 * capacity) <= |m|
        && 2 * capacity < WORD_LIMIT
    requires r == Put32(m, q + CAPACITY, 2 * capacity)
    ensures Agrees(r, head, heads, g, NONE) && ControlIs(r, g, q, 2 * capacity, es)
  {
    hide Layout.Tiled, Layout.Listed, Entries, Get32, Put32, Agrees;
    RoomInside(g, q, ControlBytes(2 * capacity));
    WriteAgrees(m, r, head, heads, g, NONE, q - HEADER, q + CAPACITY, q + CAPACITY + 4);
    SizeIs(r, g, head, heads);
    SameWord(m, r, 0, q + CAPACITY, q);
    SameWord(m, r, 0, q + CAPACITY, q + 4);
    SameWord(m, r, 0, q + CAPACITY, q + COUNT);
    EntriesSame(m, r, q, |es|);
  }

  /** Storing a key, an offset and the count adds an entry. */
  lemma EntryAdded(m: seq<byte>, m1: seq<byte>, m2: seq<byte>, r: seq<byte>, head: nat, heads: seq<nat>, l: Layout,
    c: nat,
      capacity: nat, es: seq<Entry>, key: seq<byte>, offset: word)
    requires l.Inv() && Agrees(m, head, heads, l, NONE) && ControlIs(m, l, c, capacity, es) && |es| < capacity
        && |key| == 8
    requires c + ControlBytes(capacity) <= |m| && |es| + 1 < WORD_LIMIT
    requires var o := c + ENTRIES + ENTRY_SIZE * |es|;
      && OnlyIn(m, m1, o, o + 8) && m1[o..o + 8] == key && m2 == Put32(m1, o + FIELD_DATA, offset)
      && r == Put32(m2, c + COUNT, |es| + 1)
    ensures Agrees(r, head, heads, l, NONE) && ControlHolds(r, l, c)
    ensures ControlAdded(r, c, capacity, es, key, offset)
  {
    var o := c + ENTRIES + ENTRY_SIZE * |es|;
    hide Layout.Tiled, Layout.Listed, Entries, Get32, Put32, Agrees;
    RoomInside(l, c, ControlBytes(capacity));
    WriteAgrees(m, m1, head, heads, l, NONE, c - HEADER, o, o + 8);
    WriteAgrees(m1, m2, head, heads, l, NONE, c - HEADER, o + 8, o + 12);
    WriteAgrees(m2, r, head, heads, l, NONE, c - HEADER, c + COUNT, c + COUNT + 4);
    SizeIs(r, l, head, heads);
    WordsKept(m, m1, m2, r, c, o);
    AddedEntry(m, m1, m2, r, c, es, key, offset);
  }

  /** The control block's entries are es and one more, with this key and offset. */
  ghost predicate ControlAdded(m: seq<byte>, c: nat, capacity: nat, es: seq<Entry>, key: seq<byte>, offset: word) {
    && IsControl(m, c) && Get32(m, c + CAPACITY) == capacity && Get32(m, c + COUNT) == |es| + 1
    && c + ENTRIES + ENTRY_SIZE * (|es| + 1) <= |m|
    && var now := Entries(m, c, |es| + 1); now[..|es|] == es && now[|es|][..8] == key && FieldData(now[|es|]) == offset
  }

  lemma WordsKept(m: seq<byte>, m1: seq<byte>, m2: seq<byte>, r: seq<byte>, c: nat, o: nat)
    requires |m| == |m1| == |m2| == |r| && c + ENTRIES <= o && o + 12 <= |m|
    requires OnlyIn(m, m1, o, o + 8) && OnlyIn(m1, m2, o + 8, o + 12) && OnlyIn(m2, r, c + COUNT, c + COUNT + 4)
    ensures Get32(r, c) == Get32(m, c) && Get32(r, c + 4) == Get32(m, c + 4)
        && Get32(r, c + CAPACITY) == Get32(m, c + CAPACITY)
  {
  }

  lemma AddedEntry(m: seq<byte>, m1: seq<byte>, m2: seq<byte>, r: seq<byte>, c: nat, es: seq<Entry>, key: seq<byte>,
    offset: word)
    requires c + ENTRIES + ENTRY_SIZE * (|es| + 1) <= |m| && Entries(m, c, |es|) == es && |key| == 8
    requires var o := c + ENTRIES + ENTRY_SIZE * |es|;
      && OnlyIn(m, m1, o, o + 8) && m1[o..o + 8] == key && m2 == Put32(m1, o + FIELD_DATA, offset)
      && OnlyIn(m2, r, c + COUNT, c + COUNT + 4)
    ensures var now := Entries(r, c, |es| + 1);
        now[..|es|] == es && now[|es|][..8] == key
        && FieldData(now[|es|]) == offset
  {
    var o := c + ENTRIES + ENTRY_SIZE * |es|;
    hide Entries, Put32;
    EntriesSame(m, m1, c, |es|);
    EntriesSame(m1, m2, c, |es|);
    EntriesSame(m2, r, c, |es|);
    EntriesPrefix(r, c, |es|);
    var e := r[o..o + ENTRY_SIZE];
    assert e[..8] == key by { assert e[..8] == m1[o..o + 8]; }
    assert Get32(e, FIELD_DATA) == Get32(r, o + FIELD_DATA) == Get32(m2, o + FIELD_DATA);
  }

  /** A control block that has strayed is one reason not to free since the mark. */
  lemma RefusesStrayed(m: seq<byte>, freeList: nat, failed: bool, c: nat, mark: nat)
    ensures IsControl(m, c) && Control(c, Get32(m, c + CAPACITY)).Strayed(mark)
        ==> Refuses(m, freeList, failed, c, mark)
    ensures !NoControl.Strayed(mark)
  {
  }

  /** The control block's entries are those of its first n whose tables lie below the mark. */
  ghost predicate Filtered(m: seq<byte>, r: seq<byte>, c: nat, n: nat, mark: nat) {
    && c + ENTRIES + ENTRY_SIZE * n <= |m| == |r|
    && var kept := KeptEntries(Entries(m, c, n), mark);
      Get32(r, c + COUNT) == |kept| && Entries(r, c, |kept|) == kept
  }

  lemma FilteredNow(m0: seq<byte>, m1: seq<byte>, r: seq<byte>, c: nat, n: nat, kept: nat, mark: nat)
    requires kept <= n && c + ENTRIES + ENTRY_SIZE * n <= |m0| == |m1| == |r| && kept < WORD_LIMIT
    requires OnlyIn(m0, m1, c + ENTRIES, c + ENTRIES + ENTRY_SIZE * kept)
    requires Entries(m1, c, kept) == KeptEntries(Entries(m0, c, n), mark)
    requires r == Put32(m1, c + COUNT, kept)
    ensures Filtered(m0, r, c, n, mark)
    ensures OnlyIn(m0, r, c + COUNT, c + ENTRIES + ENTRY_SIZE * n)
    ensures Same(m0, r, c + CAPACITY, c + ENTRIES)
  {
    EntriesSame(m1, r, c, kept);
  }

  lemma ControlWrites(m: seq<byte>, r: seq<byte>, head: nat, heads: seq<nat>, l: Layout, c: nat, n: nat)
    requires l.Inv() && Agrees(m, head, heads, l, NONE) && ControlOk(m, l, c) && IsControl(m, c)
    requires n == Get32(m, c + COUNT)
    requires OnlyIn(m, r, c + COUNT, c + ENTRIES + ENTRY_SIZE * n)
    ensures Agrees(r, head, heads, l, NONE)
  {
    WriteAgrees(m, r, head, heads, l, NONE, c - HEADER, c + COUNT, c + ENTRIES + ENTRY_SIZE * n);
  }

  /** Where the free memory of a new buffer starts, or 0 for a buffer that is not new. */
  ghost function MarkOf(s: State): nat {
    if s.l.free != [] && Marked(s, s.l.free[0]) then s.l.free[0] else 0
  }

  lemma NewBufferWords(m: seq<byte>, head: nat, heads: seq<nat>, s: State)
    requires s.Inv() && Agrees(m, head, heads, s.l, NONE)
    ensures (forall c :: 0 <= c < CLASSES ==> heads[c] == 0) <==> NoIdle(s.l)
    ensures head == LinkAt(s.l.free, 0) && (head == 0 <==> s.l.free == [])
    ensures head != 0 ==> head + HEADER <= |m| && (Get32(m, head + 4) == 0 <==> |s.l.free| == 1) && s.l.FreeAt(0)
    ensures head != 0 ==> (Get32(m, head) == s.l.full - head <==> s.l.End(head) == s.l.full)
  {
    FreeHead(m, head, heads, s.l);
    IdleHeads(m, head, heads, s.l, 0);
    IdleHeads(m, head, heads, s.l, 1);
    IdleHeads(m, head, heads, s.l, 2);
    IdleHeads(m, head, heads, s.l, 3);
    if head != 0 {
      FreeHeader(m, head, heads, s.l, 0);
      NextInside(s.l, 1);
    }
  }

  /** Writing the header of the one free block that a reset leaves. */
  lemma ResetAgrees(m: seq<byte>, r: seq<byte>, head: nat, heads: seq<nat>, l: Layout, mark: nat)
    requires l.Inv() && Agrees(m, head, heads, l, NONE) && mark in l.tiles && 0 < mark && mark + HEADER <= l.full
    requires OnlyIn(m, r, mark, mark + HEADER) && Get32(r, mark) == l.full - mark && Get32(r, mark + 4) == 0
    ensures ResetLayout(l, mark).Inv() && Agrees(r, mark, [0, 0, 0, 0], ResetLayout(l, mark), NONE)
  {
    ResetInv(l, mark);
    var g := ResetLayout(l, mark);
    forall o: nat ensures HeaderOk(r, g, o) {
      assert HeaderOk(m, l, o) && l.Apart(o, mark);
      if o in l.tiles { assert l.TileOk(o); }
    }
    forall i: int ensures LinkOk(r, mark, g, i) { }
    forall c: nat, j: int ensures IdleLinkOk(r, [0, 0, 0, 0], g, c, j) { }
  }

  /** Below the mark only the control block's entries and their count have changed, and past it
      only the first header. */
  ghost predicate MetadataFiltered(m: seq<byte>, r: seq<byte>, c: nat, mark: nat) {
    && |r| == |m| && Same(m, r, mark + HEADER, |m|)
    && if IsControl(m, c) then
      var n := Get32(m, c + COUNT);
      && Filtered(m, r, c, n, mark)
      && Same(m, r, 0, c + COUNT) && Same(m, r, c + CAPACITY, c + ENTRIES)
        && Same(m, r, c + ENTRIES + ENTRY_SIZE * n, mark)
    else Same(m, r, 0, mark)
  }

  lemma FilteredStays(m: seq<byte>, m1: seq<byte>, r: seq<byte>, c: nat, n: nat, mark: nat)
    requires Filtered(m, m1, c, n, mark) && |r| == |m1| && Same(m1, r, c, c + ENTRIES + ENTRY_SIZE * n)
    ensures Filtered(m, r, c, n, mark)
  {
    EntriesSame(m1, r, c, |KeptEntries(Entries(m, c, n), mark)|);
  }

  lemma MetadataFilteredNow(m: seq<byte>, m1: seq<byte>, r: seq<byte>, c: nat, mark: nat)
    requires |m| == |m1| && OnlyIn(m1, r, mark, mark + HEADER) && mark + HEADER <= |m|
    requires !IsControl(m, c) ==> m1 == m
    requires IsControl(m, c) ==>
      var n := Get32(m, c + COUNT);
      && c + ENTRIES + ENTRY_SIZE * n <= mark && Filtered(m, m1, c, n, mark)
      && OnlyIn(m, m1, c + COUNT, c + ENTRIES + ENTRY_SIZE * n) && Same(m, m1, c + CAPACITY, c + ENTRIES)
    ensures MetadataFiltered(m, r, c, mark)
  {
    if IsControl(m, c) { FilteredStays(m, m1, r, c, Get32(m, c + COUNT), mark); }
  }

  /** The state was reached by the run `ops` from a buffer newly marked in state x0; no allocation
      of it took the end. */
  ghost predicate SinceMark(x0: Pair, ops: seq<MetaOp>, cfg: Config, mark: nat, y: Pair) {
    && Begins(x0, cfg, mark) && x0.s.Inv()
    && MetaRuns(x0.s.l, x0.control, x0, ops, cfg, mark, true)
      && MetaRun(x0.s.l, x0.control, x0, ops, cfg, mark, true) == y
  }

  lemma SinceMarkRestores(x0: Pair, ops: seq<MetaOp>, cfg: Config, mark: nat, s: State, k: Control)
    requires SinceMark(x0, ops, cfg, mark, Pair(s, k))
    ensures 0 < mark
    ensures !k.Strayed(mark) ==> mark in s.l.tiles && mark <= s.l.full && Fixed(Rebased(x0.s, k).l, s.l, mark)
    ensures !k.Strayed(mark) ==>
        State(ResetLayout(s.l, mark), mark + HEADER, false)
        == Restored(Rebased(x0.s, k), mark, s.l.full)
    ensures LinkAt(s.l.free, 0) == mark && s.hwm == mark + HEADER ==> !k.Strayed(mark)
    ensures LinkAt(s.l.free, 0) == mark && s.hwm == mark + HEADER ==> s == Restored(Rebased(x0.s, k), mark, s.l.full)
  {
    hide MetaRun, MetaRuns, Layout.Tiled, Layout.Listed, Rebased;
    MarkIsPositive(x0.s, mark);
    FreeingWithControlRestores(x0, ops, cfg, mark, true);
    SkippingWithControlRestores(x0, ops, cfg, mark);
  }

  /** The main message is inside its own block below the mark, apart from the metadata. */
  ghost predicate MainMessage(l: Layout, message: nat, binarySize: nat, mark: nat) {
    4 <= binarySize && LiveAt(l, message) && message + binarySize <= l.End(message - HEADER) <= mark
  }

  lemma MainMessageStays(s0: State, s: State, mark: nat, message: nat, binarySize: nat)
    requires Fixed(s0.l, s.l, mark) && MainMessage(s.l, message, binarySize, mark) && mark <= s.l.full
    ensures message < mark && Live(Restored(s0, mark, s.l.full).l, message - HEADER)
    ensures Restored(s0, mark, s.l.full).l.End(message - HEADER) == s.l.End(message - HEADER)
  {
  }

  /** A buffer that is as a reset leaves it has nothing allocated past the mark. */
  lemma IdleBelow(m: seq<byte>, s: State, b: State, mark: nat, c: nat)
    requires s.Inv() && mark in s.l.tiles && mark <= s.l.full && Fixed(b.l, s.l, mark)
    requires State(ResetLayout(s.l, mark), mark + HEADER, false) == Restored(b, mark, s.l.full) == s
    ensures StayedBelow(m, m, s.l, s.l, mark, 0, c) && forall o: nat :: Live(s.l, o) ==> o < mark
  {
    hide Layout.Tiled, Layout.Listed;
    forall o: nat | Live(s.l, o) ensures o < mark { assert o in ResetLayout(s.l, mark).tiles; }
  }

  /** Emptying the message changes no other block. */
  lemma ClearedBelow(m: seq<byte>, f: seq<byte>, r: seq<byte>, l: Layout, g: Layout, mark: nat, message: nat,
      binarySize: nat, c: nat)
    requires l.Inv() && |m| == l.full && MainMessage(l, message, binarySize, mark)
    requires StayedBelow(m, f, l, g, mark, 0, c)
    requires OnlyIn(f, r, message + 4, message + binarySize)
    ensures StayedBelow(m, r, l, g, mark, message, c)
  {
    hide Layout.Listed;
    forall o: nat | Live(g, o) && o + 8 != message && o + 8 != c ensures Same(m, r, o, l.End(o)) {
      assert l.Apart(o, message - HEADER) && l.Apart(message - HEADER, o);
      assert Same(m, f, o, l.End(o));
    }
  }

  lemma UserBlockStays(m: seq<byte>, r: seq<byte>, l: Layout, g: Layout, mark: nat, message: nat, c: nat, u: nat)
    requires StayedBelow(m, r, l, g, mark, message, c) && (u < mark || forall o: nat :: Live(l, o) ==> o < mark)
    ensures BlockStays(l, g, u)
  {
    if LiveAt(l, u) { assert Live(g, u - HEADER); }
  }

  lemma FilteredBelow(m: seq<byte>, r: seq<byte>, l: Layout, c: nat, mark: nat)
    requires l.Inv() && |m| == l.full && mark in l.tiles && mark + HEADER <= l.full
    requires ControlOk(m, l, c) && MetadataFiltered(m, r, c, mark)
    ensures StayedBelow(m, r, l, ResetLayout(l, mark), mark, 0, c)
  {
    hide Layout.Listed, Filtered;
    var g := ResetLayout(l, mark);
    forall o: nat | Live(g, o) && o + 8 != c ensures Same(m, r, o, l.End(o)) { BlockUnfiltered(m, r, l, c, mark, o); }
  }

  lemma BlockUnfiltered(m: seq<byte>, r: seq<byte>, l: Layout, c: nat, mark: nat, o: nat)
    requires l.Inv() && |m| == l.full && mark in l.tiles && Live(l, o) && o < mark && o + 8 != c
    requires ControlOk(m, l, c) && MetadataFiltered(m, r, c, mark)
    ensures Same(m, r, o, l.End(o))
  {
    hide Filtered;
    assert l.Apart(o, mark) && l.TileOk(o);
    if IsControl(m, c) {
      ControlInside(m, l, c);
      assert l.Apart(o, c - HEADER) && l.Apart(c - HEADER, o);
    }
  }

  lemma AllowedMeans(m: seq<byte>, l: Layout, freeList: nat, failed: bool, c: nat, mark: nat)
    requires l.Inv() && !Refuses(m, freeList, failed, c, mark) && ControlOk(m, l, c)
    ensures mark + HEADER <= |m|
    ensures IsControl(m, c) ==> c + ENTRIES + ENTRY_SIZE * Get32(m, c + COUNT) <= mark
  {
    if IsControl(m, c) { ControlInside(m, l, c); }
  }

}
