/**
Vectors of messages, held inline in chunks that never move: finding elements in four ways, growing, adding,
inserting, erasing and releasing.
*/
module MessageVectors {
  import opened Bytes
  import opened Layouts
  import opened HeapSpec
  import opened HeapMemory
  import opened PayloadBuffers
  import opened AllocatedBlocks
  import opened VectorChunks
  import opened VectorMemory
  import opened VectorGrowth
  import opened VectorOutcomes

  /** A 32-bit left shift. */
  function Shl32(x: nat, k: nat): word {
    x * Pow2(k) % WORD_LIMIT
  }

  lemma FewElements(n: nat, s: nat, size: nat)
    requires 8 <= s && n * s <= size < FLAG
    ensures n < FLAG / 8
  {
    assert n * 8 <= n * s;
  }

  lemma NoWrap(x: nat, k: nat)
    requires x * Pow2(k) < WORD_LIMIT
    ensures Shl32(x, k) == x * Pow2(k)
  {
  }

  lemma ChunkIsSmall(m: seq<byte>, head: nat, heads: seq<nat>, l: Layout, v: Vec, k: nat)
    requires l.Inv() && Agrees(m, head, heads, l, NONE) && Stored(l, v) && v.block != 0 && k <= |v.chunks|
    ensures ChunkSize(v.first, k) < FLAG / 8
  {
    hide Pow2, Layout.Tiled, Layout.Listed, ChunkSize, Begin;
    ChunkInside(l, v, k);
    FewElements(ChunkSize(v.first, k), v.stride, l.full);
  }

  /** No capacity of a vector that is in a buffer wraps. */
  lemma CapacityIsWord(m: seq<byte>, head: nat, heads: seq<nat>, l: Layout, v: Vec, k: nat)
    requires l.Inv() && Agrees(m, head, heads, l, NONE) && Stored(l, v) && v.block != 0 && k <= |v.chunks|
    ensures VectorChunks.End(v.first, k) < WORD_LIMIT && Shl32(v.first, k) == VectorChunks.End(v.first, k)
    ensures Begin(v.first, k) < WORD_LIMIT && v.first < WORD_LIMIT
  {
    hide Pow2, Layout.Tiled, Layout.Listed, Agrees, Stored, Shl32;
    ChunkIsSmall(m, head, heads, l, v, k);
    ChunkIsSmall(m, head, heads, l, v, 0);
    ChunksMeet(v.first, k);
    Unscaled(v.first);
    NoWrap(v.first, k);
  }

  class MessageVector {
    const pb: PayloadBuffer
    const header: nat
    const stride: nat
    const metadata: word
    ghost var v: Vec

    /** The number of elements. */
    function Count(): nat
      requires header + 4 <= pb.mem.Length
      reads this, pb, pb.mem
    {
      pb.Load32(header)
    }

    ghost predicate Valid()
      reads this, pb, pb.mem
    {
      && pb.Valid() && v.header == header && v.stride == stride && header + 8 <= pb.mem.Length
      && Holds(pb.mem[..], pb.layout, v, Count(), metadata)
    }

    /** The bytes of each element. */
    ghost function Contents(): seq<seq<byte>>
      requires Valid()
      reads this, pb, pb.mem
    {
      Elements(pb.mem[..], v, Count())
    }

    /** The heap, the vector's place in it and its elements. */
    ghost function Abstract(): Value
      requires Valid()
      reads this, pb, pb.mem
    {
      Value(pb.St(), v, Contents())
    }

    constructor (pb: PayloadBuffer, header: nat, stride: nat, metadata: word, ghost home: nat)
      requires pb.Valid() && Live(pb.layout, home) && home + HEADER <= header
      requires header + 8 <= pb.layout.End(home) <= pb.mem.Length
      requires 8 <= stride < WORD_LIMIT && stride % 8 == 0
      requires pb.Load32(header) == 0 && pb.Load32(header + 4) == 0
      ensures Valid() && Contents() == [] && this.pb == pb && this.header == header
    {
      this.pb, this.header, this.stride, this.metadata := pb, header, stride, metadata;
      v := Vec(home, header, stride, 0, 0, 0, []);
    }

    // ---- Finding elements ----

    /** The words that say where the vector is. */
    method Load() returns (block: nat, first: nat, dir: nat, num: nat)
      requires Valid()
      ensures block == v.block && (block != 0 ==> first == v.first > 0 && dir == v.dir && num == |v.chunks|)
      ensures block != 0 ==> first < WORD_LIMIT && v.Capacity() < WORD_LIMIT
    {
      first, dir, num := 0, 0, 0;
      block := pb.Load32(header + 4);
      if block != 0 {
        CapacityIsWord(pb.mem[..], pb.freeList, pb.bitmaps, pb.layout, v, |v.chunks|);
        first := pb.Load32(block + 4);
        dir := pb.Load32(block + 12);
        num := if dir == 0 then 0 else pb.Load32(dir);
      }
    }

    /** The offset of chunk k: the end of the block's words, or from the directory. */
    method ChunkAt(k: nat) returns (p: nat)
      requires Valid() && v.block != 0 && k <= |v.chunks|
      ensures p == v.Base(k)
    {
      var block := pb.Load32(header + 4);
      if k == 0 {
        return block + BLOCK_HEADER;
      }
      assert DirWord(pb.mem[..], v, k);
      p := pb.Load32(pb.Load32(block + 12) + 4 * k);
    }

    /** The chunk of element `index`, tried from the first. */
    method Of(first: word, index: nat) returns (k: nat)
      requires Valid() && v.block != 0 && first == v.first && index < v.Capacity()
      ensures k == ChunkOf(v.first, index) <= |v.chunks|
    {
      hide Layout.Tiled, Layout.Listed, Agrees, ChunkOf, Pow2;
      k := 0;
      ChunkBelow(v.first, index, |v.chunks|);
      CapacityIsWord(pb.mem[..], pb.freeList, pb.bitmaps, pb.layout, v, 0);
      while Shl32(first, k) <= index
        invariant k <= ChunkOf(v.first, index) <= |v.chunks|
        invariant Shl32(first, k) == VectorChunks.End(first, k)
        decreases ChunkOf(v.first, index) - k
      {
        if k >= ChunkOf(first, index) { EndMonotone(first, ChunkOf(first, index), k); }
        k := k + 1;
        CapacityIsWord(pb.mem[..], pb.freeList, pb.bitmaps, pb.layout, v, k);
      }
      if k < ChunkOf(first, index) { EndMonotone(first, k, ChunkOf(first, index) - 1); }
    }

    /** The offset of element `index` past the first chunk, whose chunk is found by leading zeros. */
    method Further(first: word, index: word) returns (p: nat)
      requires Valid() && v.block != 0 && 0 < first == v.first <= index < v.Capacity()
      ensures p == v.At(index)
    {
      hide Layout.Tiled, Layout.Listed, Agrees, ChunkOf, Pow2, Log2, ChunkShift, Holds;
      ShiftFindsChunk(first, index);
      ChunkBelow(first, index, |v.chunks|);
      var shift: nat := ChunkShift(first, index);
      var chunk := ChunkAt(shift + 1);
      p := chunk + (index - first * Pow2(shift)) * stride;
    }

    /** The offset of the place for element `index`. */
    method ElementAt(index: word) returns (p: nat)
      requires Valid() && index < v.Capacity()
      ensures p == v.At(index) && v.block != 0
    {
      hide Layout.Tiled, Layout.Listed, Agrees, ChunkOf, Pow2;
      var block, first, dir, num := Load();
      if index < first {
        AtFirst(v, index);
        return block + BLOCK_HEADER + index * stride;
      }
      p := Further(first, index);
    }

    /** The offset of element `index`; 0 if there is no such element. */
    method ElementOffset(index: word) returns (p: nat)
      requires Valid()
      ensures p == if index < Count() then v.At(index) else 0
    {
      hide Layout.Tiled, Layout.Listed, Agrees, ChunkOf, Pow2;
      var block, first, dir, num := Load();
      if block == 0 || index >= Count() || index >= first * Pow2(num) {
        return 0;
      }
      p := ElementAt(index);
    }

    /** The offset of each element, in order, found by walking the chunks. */
    method Offsets() returns (offsets: seq<nat>)
      requires Valid()
      ensures offsets == AllAt(v, Count())
    {
      hide Layout.Tiled, Layout.Listed, Agrees, ChunkOf, Pow2, Stored, Written;
      var block, first, dir, num := Load();
      var remaining := if block == 0 then 0 else Count();
      offsets := [];
      if remaining == 0 {
        return;
      }
      var chunk := block + BLOCK_HEADER;
      var capacity := first;
      ChunkSizes(first, 0);
      var k := 1;
      while true
        invariant 1 <= k <= num + 1 && chunk == v.Base(k - 1) && capacity == ChunkSize(first, k - 1)
        invariant |offsets| == Begin(first, k - 1) && remaining == Count() - |offsets| && remaining > 0
        invariant |offsets| <= v.Capacity() && offsets == AllAt(v, |offsets|)
        decreases num + 1 - k
      {
        var n := if remaining < capacity then remaining else capacity;
        offsets := AppendRun(k - 1, first, chunk, n, offsets);
        remaining := remaining - n;
        if remaining == 0 {
          break;
        }
        WalkOn(v, k, |offsets|, Count());
        CapacityIsWord(pb.mem[..], pb.freeList, pb.bitmaps, pb.layout, v, k - 1);
        chunk := ChunkAt(k);
        capacity := Shl32(first, k - 1);
        k := k + 1;
      }
    }

    /** The offsets of the first n elements of chunk k, after those of the elements before it. */
    method AppendRun(k: nat, first: nat, chunk: nat, n: nat, before: seq<nat>) returns (offsets: seq<nat>)
      requires Valid() && v.block != 0 && k <= |v.chunks| && first == v.first > 0 && chunk == v.Base(k)
      requires |before| == Begin(first, k) <= v.Capacity() && before == AllAt(v, |before|) && n <= ChunkSize(first, k)
      ensures |before| + n <= v.Capacity() && offsets == AllAt(v, |before| + n)
    {
      hide Layout.Tiled, Layout.Listed, Agrees, ChunkOf, Pow2, Holds, Vec.At, AllAt;
      offsets := before;
      RoomInChunk(v, k, n);
      var i := 0;
      while i < n
        invariant i <= n && offsets == AllAt(v, |before| + i)
      {
        OneMoreAt(v, k, |before|, i);
        offsets := offsets + [chunk + i * stride];
        i := i + 1;
      }
    }

    // ---- Changing elements ----

    /** All the elements there is room for, of which the first are those of the vector. */
    ghost function All(): (r: seq<seq<byte>>)
      requires Valid()
      reads this, pb, pb.mem
      ensures |r| == v.Capacity() >= Count() && Contents() == r[..Count()]
    {
      Elements(pb.mem[..], v, v.Capacity())
    }

    /** Nothing but elements of this vector and its header has changed. */
    twostate predicate Within()
      reads this, pb, pb.mem
    {
      && v == old(v) && pb.mem == old(pb.mem) && pb.St() == old(pb.St())
      && pb.message == old(pb.message) && pb.metadata == old(pb.metadata)
      && Spares(old(pb.mem[..]), pb.mem[..], pb.layout, pb.layout, v)
    }

    /** Stores element `index`, which is in chunk k, at its offset. */
    method StoreElement(ghost k: nat, ghost index: nat, at: nat, element: seq<byte>)
      requires Valid() && v.block != 0 && k <= |v.chunks| && InChunk(v.first, k, index) && index < v.Capacity()
      requires at == v.RunAt(k, index) && |element| == stride
      modifies pb.mem
      ensures Valid() && Within() && Count() == old(Count()) && All() == old(All())[index := element]
    {
      hide Layout.Tiled, Layout.Listed, Agrees, ChunkOf, Pow2, Stored, Written, Begin, VectorChunks.End, Vec.RunAt,
        Spares;
      ghost var m, count := pb.mem[..], Count();
      RunInside(pb.layout, v, k, index, 1);
      pb.StoreBytes(at, element);
      ElementStored(m, pb.mem[..], pb.freeList, pb.bitmaps, pb.layout, v, count, metadata, k, index, element);
      CountIs(pb.mem[..], pb.layout, v, count, metadata);
    }

    /** memmove of n elements from element b in chunk kb to element a in chunk ka. */
    method MoveRun(ghost ka: nat, ghost a: nat, to: nat, ghost kb: nat, ghost b: nat, from: nat, n: nat)
      requires Valid() && v.block != 0 && ka <= |v.chunks| && kb <= |v.chunks|
      requires Begin(v.first, ka) <= a && a + n <= VectorChunks.End(v.first, ka)
      requires Begin(v.first, kb) <= b && b + n <= VectorChunks.End(v.first, kb)
      requires to == v.RunAt(ka, a) && from == v.RunAt(kb, b) && a + n <= v.Capacity() && b + n <= v.Capacity()
      modifies pb.mem
      ensures Valid() && Within() && Count() == old(Count()) && All() == CopiedRun(old(All()), a, b, n)
    {
      hide Layout.Tiled, Layout.Listed, Agrees, ChunkOf, Pow2, Stored, Written, Begin, VectorChunks.End, Vec.RunAt,
        Spares, Move;
      ghost var m, count := pb.mem[..], Count();
      RunInside(pb.layout, v, ka, a, n);
      RunInside(pb.layout, v, kb, b, n);
      var size := n * stride;
      pb.MoveBytes(to, from, size);
      RunsMoved(m, pb.mem[..], pb.freeList, pb.bitmaps, pb.layout, v, count, metadata, ka, a, kb, b, n, size);
      CountIs(pb.mem[..], pb.layout, v, count, metadata);
    }

    method SetCount(n: nat)
      requires Valid() && n <= v.Capacity() && n < WORD_LIMIT
      modifies pb.mem
      ensures Valid() && Within() && Count() == n && All() == old(All())
    {
      hide Layout.Tiled, Layout.Listed, Agrees, Pow2, Stored, Spares, Vec.At, ChunkOf;
      ghost var m, count := pb.mem[..], Count();
      pb.Store32(header, n);
      CountWritten(m, pb.mem[..], pb.freeList, pb.bitmaps, pb.layout, v, count, metadata, n);
    }

    /** The offset of element `index`, which is in chunk k. */
    method Locate(first: nat, k: nat, index: nat) returns (p: nat)
      requires Valid() && v.block != 0 && first == v.first && k <= |v.chunks| && Begin(first, k) <= index
      ensures p == v.RunAt(k, index)
    {
      hide Layout.Tiled, Layout.Listed, Agrees, Pow2, Holds;
      var chunk := ChunkAt(k);
      var begin := BeginOf(first, k);
      p := chunk + (index - begin) * stride;
    }

    /** Shifts by chunk numbers do not wrap. */
    lemma CapacityIsWordIn(k: nat)
      requires Valid() && v.block != 0 && k <= |v.chunks|
      ensures VectorChunks.End(v.first, k) < WORD_LIMIT && Shl32(v.first, k) == VectorChunks.End(v.first, k)
      ensures k > 0 ==> Shl32(v.first, k - 1) == Begin(v.first, k)
      ensures 0 < v.first < WORD_LIMIT && Count() < WORD_LIMIT
    {
      hide Layout.Tiled, Layout.Listed, Pow2, Shl32;
      CapacityIsWord(pb.mem[..], pb.freeList, pb.bitmaps, pb.layout, v, k);
      if k > 0 { CapacityIsWord(pb.mem[..], pb.freeList, pb.bitmaps, pb.layout, v, k - 1); }
    }

    /** Load() of a vector that has elements. */
    method LoadSome() returns (first: nat)
      requires Valid() && Count() > 0
      ensures v.block != 0 && 0 < first == v.first < WORD_LIMIT
    {
      hide Layout.Tiled, Layout.Listed, Agrees, Pow2, Stored, Written;
      var block, f, dir, num := Load();
      first := f;
    }

    /** The first element of chunk k. */
    method BeginOf(first: nat, k: nat) returns (begin: nat)
      requires Valid() && v.block != 0 && first == v.first && k <= |v.chunks|
      ensures begin == Begin(first, k)
    {
      CapacityIsWordIn(k);
      begin := if k == 0 then 0 else Shl32(first, k - 1);
    }

    /** The elements of chunk k from `low` up to `end` move up by one. */
    method ShiftUp(first: nat, k: nat, low: nat, end: nat) returns (from: nat)
      requires Valid() && v.block != 0 && first == v.first && k <= |v.chunks|
      requires Begin(first, k) <= low <= end < VectorChunks.End(first, k) && end < v.Capacity()
      modifies pb.mem
      ensures Valid() && Within() && Count() == old(Count())
      ensures All() == CopiedRun(old(All()), low + 1, low, end - low) && from == v.RunAt(k, low)
    {
      hide Layout.Tiled, Layout.Listed, Agrees, Pow2, Holds, All, CopiedRun;
      from := Locate(first, k, low);
      NextInRun(v, k, low);
      MoveRun(k, low + 1, from + stride, k, low, from, end - low);
    }

    /** The elements of chunk k from `low` up to `end` move up by one, and then the last of the chunk below to its
        start. */
    method OpenChunk(first: nat, k: nat, end: nat)
      requires Valid() && v.block != 0 && first == v.first > 0 && 0 < k <= |v.chunks| && InChunk(first, k, end)
      requires end < v.Capacity()
      modifies pb.mem
      ensures Valid() && Within() && Count() == old(Count())
      ensures 0 < Begin(first, k) <= end
      ensures var low := Begin(first, k);
          All()
          == CopiedRun(CopiedRun(old(All()), low + 1, low, end - low), low, low - 1, 1)
    {
      hide Layout.Tiled, Layout.Listed, Agrees, Pow2, Holds, ChunkOf, CopiedRun, VectorChunks.End, Vec.RunAt, All,
        Spares;
      ghost var m := pb.mem[..];
      var low := BeginOf(first, k);
      PreviousChunk(first, k);
      var from := ShiftUp(first, k, low, end);
      ghost var m1 := pb.mem[..];
      var last := Locate(first, k - 1, low - 1);
      MoveRun(k, low, from, k - 1, low - 1, last, 1);
      SparesOn(m, m1, pb.mem[..], pb.layout, v);
    }

    /**
    Moves the elements from `index` up by one, over the last element, which must be empty, and makes element
    `index` empty.  Its offset is returned.
    */
    method OpenElementAt(index: nat) returns (p: nat)
      requires Valid() && index < Count()
      modifies pb.mem
      ensures Valid() && Within() && Count() == old(Count()) && p == v.At(index)
      ensures var e := old(Contents()); Contents() == e[..index] + [Empty(stride, metadata)] + e[index..|e| - 1]
    {
      hide Layout.Tiled, Layout.Listed, Agrees, Pow2, Holds, ChunkOf, CopiedRun, Opened, Begin, VectorChunks.End,
        Vec.RunAt, Spares, Elements;
      ghost var e, m := All(), pb.mem[..];
      var first := LoadSome();
      HoldsSizes(m, pb.layout, v, Count(), metadata);
      var end: nat := Count() - 1;
      var k: nat := Of(first, end);
      OpenedStart(e, end);
      SparesSame(m, pb.layout, v);
      while true
        invariant Valid() && Within() && Count() == old(Count()) && k <= |v.chunks| && index <= end < Count()
        invariant InChunk(first, k, end) && All() == Opened(e, end, Count())
        decreases k
      {
        ghost var m1 := pb.mem[..];
        var low: nat := BeginOf(first, k);
        if low <= index {
          p := OpenLast(first, k, index, end);
          SparesOn(m, m1, pb.mem[..], pb.layout, v);
          OpenedEnd(e, index, end, Count(), Empty(stride, metadata));
          return;
        }
        PreviousChunk(first, k);
        OpenChunk(first, k, end);
        SparesOn(m, m1, pb.mem[..], pb.layout, v);
        OpenedMore(e, low, end, Count());
        end := low - 1;
        k := k - 1;
      }
    }

    /** The elements of chunk k from `index` up to `end` move up by one and element `index` is made empty. */
    method OpenLast(first: nat, k: nat, index: nat, end: nat) returns (p: nat)
      requires Valid() && v.block != 0 && first == v.first && k <= |v.chunks|
      requires Begin(first, k) <= index <= end < VectorChunks.End(first, k) && end < v.Capacity()
      modifies pb.mem
      ensures Valid() && Within() && Count() == old(Count()) && p == v.At(index)
      ensures All() == CopiedRun(old(All()), index + 1, index, end - index)[index := Empty(stride, metadata)]
    {
      hide Layout.Tiled, Layout.Listed, Agrees, Pow2, Holds, ChunkOf, CopiedRun, Vec.RunAt, All, Spares, Stored;
      ghost var m := pb.mem[..];
      HoldsSizes(m, pb.layout, v, Count(), metadata);
      p := ShiftUp(first, k, index, end);
      ghost var m1 := pb.mem[..];
      OneChunkRun(v, k, index);
      StoreElement(k, index, p, Empty(stride, metadata));
      SparesOn(m, m1, pb.mem[..], pb.layout, v);
    }

    /** The chunk of element `index` and the elements of it from there on. */
    method ChunkAndRest(first: nat, index: nat) returns (k: nat, rest: nat)
      requires Valid() && v.block != 0 && 0 < first == v.first < WORD_LIMIT && index < v.Capacity()
      ensures k <= |v.chunks| && Begin(first, k) <= index && rest > 0 && index + rest == VectorChunks.End(first, k)
    {
      hide Layout.Tiled, Layout.Listed, Agrees, Pow2, Holds, ChunkOf, Shl32, Begin, VectorChunks.End;
      k := Of(first, index);
      CapacityIsWordIn(k);
      rest := Shl32(first, k) - index;
    }

    /** A run of elements, which both ends have in one chunk, moves. */
    method MoveBetween(first: nat, ka: nat, a: nat, kb: nat, b: nat, n: nat)
      requires Valid() && v.block != 0 && first == v.first && ka <= |v.chunks| && kb <= |v.chunks|
      requires Begin(v.first, ka) <= a && a + n <= VectorChunks.End(v.first, ka)
      requires Begin(v.first, kb) <= b && b + n <= VectorChunks.End(v.first, kb)
      requires a + n <= v.Capacity() && b + n <= v.Capacity()
      modifies pb.mem
      ensures Valid() && Within() && Count() == old(Count()) && All() == CopiedRun(old(All()), a, b, n)
    {
      hide Layout.Tiled, Layout.Listed, Agrees, Pow2, Holds, ChunkOf, CopiedRun, Vec.RunAt, All, Spares, Begin,
        VectorChunks.End;
      var from := Locate(first, kb, b);
      var to := Locate(first, ka, a);
      MoveRun(ka, a, to, kb, b, from, n);
    }

    /** One run of elements moves down by `count`, as far as both ends stay in one chunk. */
    method CloseRun(first: nat, to: nat, count: nat) returns (run: nat)
      requires Valid() && v.block != 0 && 0 < first == v.first < WORD_LIMIT && to + count < Count()
      modifies pb.mem
      ensures Valid() && Within() && Count() == old(Count())
      ensures 0 < run <= Count() - to - count
      ensures All() == CopiedRun(old(All()), to, to + count, run)
    {
      hide Layout.Tiled, Layout.Listed, Agrees, Pow2, Holds, ChunkOf, CopiedRun, Vec.RunAt, All, Spares, Begin,
        VectorChunks.End, Vec.Capacity;
      var size := Count();
      CountIs(pb.mem[..], pb.layout, v, size, metadata);
      var toChunk, toRest := ChunkAndRest(first, to);
      var fromChunk, fromRest := ChunkAndRest(first, to + count);
      run := Min(size - to - count, Min(toRest, fromRest));
      MoveBetween(first, toChunk, to, fromChunk, to + count, run);
    }

    /** Removes the `count` elements from `index`: those after them move down over them. */
    method CloseElementsAt(index: nat, count: nat)
      requires Valid() && index + count <= Count()
      modifies pb.mem
      ensures Valid() && Within() && Count() == old(Count()) - count
      ensures var e := old(Contents()); Contents() == e[..index] + e[index + count..]
    {
      hide Layout.Tiled, Layout.Listed, Agrees, Pow2, Holds, ChunkOf, CopiedRun, Closed, Vec.RunAt, Spares, Elements,
        Begin, VectorChunks.End;
      ghost var e, m := All(), pb.mem[..];
      CountIs(m, pb.layout, v, Count(), metadata);
      HoldsSizes(m, pb.layout, v, Count(), metadata);
      var size := Count();
      var to := index;
      ClosedStart(e, index, count);
      SparesSame(m, pb.layout, v);
      while to + count < size
        invariant Valid() && Within() && Count() == size && index <= to <= size - count
        invariant All() == Closed(e, index, count, to)
        decreases size - to
      {
        ghost var m1 := pb.mem[..];
        var first := LoadSome();
        var run := CloseRun(first, to, count);
        SparesOn(m, m1, pb.mem[..], pb.layout, v);
        ClosedMore(e, index, count, to, run);
        to := to + run;
      }
      ghost var m2 := pb.mem[..];
      SetCount(size - count);
      SparesOn(m, m2, pb.mem[..], pb.layout, v);
      ClosedEnd(e, index, count, size);
    }

    // ---- Growing ----

    /** Every allocated block but the vector's own is as it was, but for the vector's header. */
    twostate predicate Unharmed()
      reads this, pb, pb.mem
    {
      && (pb.mem == old(pb.mem) || fresh(pb.mem)) && pb.message == old(pb.message) && pb.metadata == old(pb.metadata)
      && Spares(old(pb.mem[..]), pb.mem[..], old(pb.layout), pb.layout, old(v))
    }

    /** Allocates a block; the vector stays as it is, even if the buffer moves. */
    method NewStorage(bytes: word) returns (c: nat, alive: bool)
      requires Valid() && 0 < bytes <= MAX_REQUEST
      modifies pb, pb.mem
      ensures alive ==> Valid() && Unharmed() && Count() == old(Count()) && All() == old(All())
      ensures Gives(Allocation(old(pb.St()), bytes, true, pb.config, true), c, alive, pb.St())
      ensures alive && c != 0 ==> Room(pb.layout, c, bytes) && !LiveAt(old(pb.layout), c)
    {
      hide Layout.Tiled, Layout.Listed, Agrees, Pow2, Holds, Spares, Kept, Keeps, Allocation, Elements, Vec.Capacity,
        Room;
      ghost var s, m, count := pb.St(), pb.mem[..], Count();
      AllocationIsOk(s, bytes, true, pb.config, true);
      c, alive := pb.Allocate(bytes, false, true);
      if alive {
        AllocationPasses(s, bytes, true, pb.config, c, pb.St(), m, pb.mem[..]);
        NewStorageHolds(m, pb.mem[..], s.l, pb.layout, v, count, metadata);
      }
    }

    method StoreBlock(p: nat, first: word)
      requires p + BLOCK_HEADER <= pb.mem.Length && stride < WORD_LIMIT
      modifies pb.mem
      ensures OnlyIn(old(pb.mem[..]), pb.mem[..], p, p + BLOCK_HEADER)
      ensures BlockWords(pb.mem[..], p, stride, first, metadata)
    {
      pb.StoreHeader(p, stride, first);
      pb.StoreHeader(p + 8, metadata, 0);
    }

    /** Gives the vector its block, whose first chunk holds `first` elements. */
    method Start(first: nat) returns (ok: bool, alive: bool)
      requires Valid() && v.block == 0 && 0 < first
      modifies this`v, pb, pb.mem
      ensures alive ==> Valid() && Unharmed() && Count() == old(Count()) == 0
      ensures alive ==> if ok then Extends(old(v), v) && v.block != 0 && v.first == first
          && v.chunks == [] else v == old(v)
      ensures alive ==> Succeeds(old(pb.layout), old(v), v)
      ensures Yields(VectorOutcomes.FirstChunk(old(pb.St()), old(v), first, pb.config), ok, alive, pb.St(), v)
    {
      hide Layout.Tiled, Layout.Listed, Agrees, Pow2, Stored, Written, Spares, Kept, Keeps, Elements, Room, Allocation;
      HoldsSizes(pb.mem[..], pb.layout, v, Count(), metadata);
      var bytes := BLOCK_HEADER + first * stride;
      if bytes > WORD_LIMIT - 1 {
        SparesSame(pb.mem[..], pb.layout, v);
        return false, true;
      }
      BlockBytesFit(first, stride);
      var p;
      ghost var m0, l0 := pb.mem[..], pb.layout;
      p, alive := NewStorage(bytes);
      if !alive || p == 0 {
        return false, alive;
      }
      StartAt(p, first, m0, l0);
      ok := true;
    }

    /** Writes the words of a new vector's block. */
    method StartAt(p: nat, first: word, ghost m0: seq<byte>, ghost l0: Layout)
      requires Valid() && v.block == 0 && 0 < first && Count() == 0
      requires Room(pb.layout, p, BLOCK_HEADER + first * stride) && !LiveAt(l0, p)
      requires l0.Inv() && |m0| == l0.full && Live(l0, v.home) && Spares(m0, pb.mem[..], l0, pb.layout, v)
      modifies this`v, pb.mem
      ensures Valid() && Count() == 0 && pb.mem == old(pb.mem) && pb.St() == old(pb.St())
      ensures v == old(v).(block := p, first := first)
      ensures Spares(m0, pb.mem[..], l0, pb.layout, old(v)) && Succeeds(l0, old(v), v)
    {
      hide Layout.Tiled, Layout.Listed, Agrees, Pow2, Stored, Written, Spares, Elements, Room, BlockWords;
      ghost var m, v0 := pb.mem[..], v;
      ghost var w := v.(block := p, first := first);
      HoldsSizes(m, pb.layout, v, 0, metadata);
      StartRoom(m, pb.freeList, pb.bitmaps, pb.layout, l0, p, BLOCK_HEADER + first * stride, v.home);
      StoreBlock(p, first);
      ghost var m1 := pb.mem[..];
      pb.Store32(header + 4, p);
      Started(m, m1, pb.mem[..], pb.freeList, pb.bitmaps, pb.layout, v, w, metadata);
      v := w;
      CountIs(pb.mem[..], pb.layout, v, 0, metadata);
      StartSucceeds(l0, v0, w);
      SparesBoth(m0, m, pb.mem[..], l0, pb.layout, pb.layout, v0, w);
    }

    /** Allocates the directory, or resizes it, for one more chunk; the vector's other blocks stay as they are. */
    method ResizeDirectory(num: nat, c: nat, ghost size: nat) returns (q: nat, alive: bool)
      requires Valid() && v.block != 0 && num == |v.chunks| < MAX_CHUNKS
      requires LiveAt(pb.layout, c) && !v.Owns(c - HEADER) && c - HEADER != v.home && Room(pb.layout, c, size)
      requires size == Begin(v.first, num + 1) * v.stride
      modifies pb, pb.mem
      ensures Gives(DirectoryFor(old(pb.St()), old(v), pb.config), q, alive, pb.St())
      ensures alive ==> pb.Valid() && Unharmed() && header + 8 <= pb.mem.Length
      ensures alive && q == 0 ==> Valid() && Count() == old(Count()) && All() == old(All())
      ensures alive && q == 0 ==> Passed(old(pb.mem[..]), pb.mem[..], old(pb.layout), pb.layout, -1)
      ensures alive && q != 0 ==> Between(pb.mem[..], pb.layout, v, c, q, old(Count()), metadata)
      ensures alive && q != 0 ==> Elements(pb.mem[..], v, v.Capacity()) == old(All())
      ensures alive && q != 0 ==> (q == v.dir || !LiveAt(old(pb.layout), q))
    {
      hide Layout.Tiled, Layout.Listed, Agrees, Pow2, Stored, Written, Spares, Kept, Keeps, Elements, Room, Brings,
        Allocation, Reallocation,
        Begin, VectorChunks.End, Between, Vec.Owns, Passed, Listing, DirWord, Gives;
      ghost var s, m, count := pb.St(), pb.mem[..], Count();
      var block, first, dir, n0 := Load();
      DirIsLive(m, pb.layout, v, count, metadata);
      AllocationIsOk(s, 4 * (num + 2), true, pb.config, true);
      q, alive := pb.Realloc(dir, 4 * (num + 2), false, true);
      if alive {
        if v.dir == 0 {
          AllocationPasses(s, 4 * (num + 2), true, pb.config, q, pb.St(), m, pb.mem[..]);
          NoDirectory(pb.mem[..], v, q);
        } else {
          DirectoryHeld(m, s.l, v, count, metadata);
          DirectoryPasses(s, pb.St(), pb.config, v, q, 4 * (num + 2), m, pb.mem[..]);
        }
        HoldsSizes(m, s.l, v, count, metadata);
        if q == 0 {
          NewStorageHolds(m, pb.mem[..], s.l, pb.layout, v, count, metadata);
        } else {
          DirectoryResized(m, pb.mem[..], s.l, pb.layout, v, c, q, size, count, metadata);
          BetweenHeader(pb.mem[..], pb.layout, v, c, q, count, metadata);
        }
      }
    }

    /** Writes the count and the last entry of a directory. */
    method StoreDirectory(q: nat, num: nat, c: word)
      requires q + 4 * (num + 2) <= pb.mem.Length && num + 1 < WORD_LIMIT
      modifies pb.mem
      ensures DirectoryWords(old(pb.mem[..]), pb.mem[..], q, num, c)
    {
      pb.Store32(q, num + 1);
      pb.Store32(q + 4 * (num + 1), c);
    }

    /** Writes the directory at q and its offset in the block, which adds chunk c. */
    method Relist(q: nat, num: nat, c: nat, ghost count: nat)
      requires pb.Valid() && v.header == header && v.stride == stride
      requires Between(pb.mem[..], pb.layout, v, c, q, count, metadata) && num == |v.chunks|
      modifies this`v, pb.mem
      ensures Valid() && Count() == count && v == WithChunk(old(v), c, q) && pb.mem == old(pb.mem)
      ensures pb.St() == old(pb.St())
      ensures Spares(old(pb.mem[..]), pb.mem[..], pb.layout, pb.layout, v)
      ensures Elements(pb.mem[..], old(v), old(v).Capacity()) == Elements(old(pb.mem[..]), old(v), old(v).Capacity())
    {
      hide Layout.Tiled, Layout.Listed, Agrees, Pow2, Stored, Written, Spares, Elements, Room, Begin, VectorChunks.End,
        Between, Vec.Owns,
        DirectoryWords;
      ghost var m := pb.mem[..];
      BetweenSizes(m, pb.freeList, pb.bitmaps, pb.layout, v, c, q, count, metadata);
      var block := pb.Load32(header + 4);
      StoreDirectory(q, num, c);
      ghost var m1 := pb.mem[..];
      pb.Store32(block + 12, q);
      ChunkAdded(m, m1, pb.mem[..], pb.freeList, pb.bitmaps, pb.layout, v, c, q, count, metadata);
      v := WithChunk(v, c, q);
      CountIs(pb.mem[..], pb.layout, v, count, metadata);
    }

    /** Frees a chunk there is no directory for. */
    method DropChunk(c: nat, ghost size: nat, ghost m0: seq<byte>, ghost l0: Layout)
      requires Valid() && LiveAt(pb.layout, c) && !v.Owns(c - HEADER) && c - HEADER != v.home
      requires Room(pb.layout, c, size) && size >= HEADER
      requires l0.Inv() && |m0| == l0.full && AtHome(l0, v) && Spares(m0, pb.mem[..], l0, pb.layout, v)
      requires !LiveAt(l0, c)
      modifies pb, pb.mem
      ensures Valid() && Count() == old(Count()) && All() == old(All()) && pb.mem == old(pb.mem)
      ensures pb.St() == Release(old(pb.St()), c)
      ensures pb.message == old(pb.message) && pb.metadata == old(pb.metadata)
      ensures Spares(m0, pb.mem[..], l0, pb.layout, v)
    {
      hide Layout.Tiled, Layout.Listed, Agrees, Pow2, Stored, Written, Spares, Elements, Room, Vec.Owns, Kept, Keeps,
        Release;
      ghost var s, m, count := pb.St(), pb.mem[..], Count();
      FreeableBlock(m, pb.freeList, pb.bitmaps, pb.layout, c, size);
      ReleaseIsOk(s, c);
      pb.FreeAt(c);
      ReleasePasses(s, c, pb.St(), m, pb.mem[..]);
      PassedHolds(m, pb.mem[..], s.l, pb.layout, c - HEADER, v, count, metadata);
      FreedSpares(m0, m, pb.mem[..], l0, s.l, pb.layout, v, c - HEADER);
      CountIs(pb.mem[..], pb.layout, v, count, metadata);
    }

    /** Adds the block at c as the vector's next chunk, or frees it if its directory cannot grow. */
    method ListChunk(num: nat, c: nat, ghost size: nat, ghost m0: seq<byte>, ghost l0: Layout)
      returns (ok: bool, alive: bool)
      requires Valid() && v.block != 0 && num == |v.chunks| < MAX_CHUNKS
      requires size == Begin(v.first, num + 1) * v.stride >= HEADER
      requires Room(pb.layout, c, size) && !LiveAt(l0, c) && l0.Inv() && |m0| == l0.full && Stored(l0, v)
      requires Spares(m0, pb.mem[..], l0, pb.layout, v) && !v.Owns(c - HEADER) && c - HEADER != v.home
      modifies this`v, pb, pb.mem
      ensures alive ==> Valid() && Count() == old(Count())
      ensures alive ==> Elements(pb.mem[..], old(v), old(v).Capacity()) == old(All())
      ensures alive ==> (pb.mem == old(pb.mem) || fresh(pb.mem)) && pb.message == old(pb.message)
      ensures alive ==> pb.metadata == old(pb.metadata)
      ensures alive ==> Spares(m0, pb.mem[..], l0, pb.layout, old(v))
      ensures alive ==> if ok then exists q :: v == WithChunk(old(v), c, q) else v == old(v)
      ensures alive ==> Succeeds(l0, old(v), v)
      ensures Yields(ListedChunk(old(pb.St()), old(v), c, pb.config), ok, alive, pb.St(), v)
    {
      hide Layout.Tiled, Layout.Listed, Agrees, Pow2, Stored, Written, Spares, Elements, Room, Begin, VectorChunks.End,
        Between, Vec.Owns, Passed,
        ListedChunk, DirectoryFor, Release, Allocation, Reallocation;
      ghost var m, l, v0, count := pb.mem[..], pb.layout, v, Count();
      NewIsApart(l0, l, v, c, size);
      ghost var s := pb.St();
      DirIsLive(m, l, v, count, metadata);
      var q;
      q, alive := ResizeDirectory(num, c, size);
      ListedChunkIs(s, v0, c, pb.config, q, alive, pb.St());
      if !alive {
        return false, alive;
      }
      StoredAt(l0, v);
      SparesBoth(m0, m, pb.mem[..], l0, l, pb.layout, v, v);
      if q == 0 {
        StillThere(m, pb.mem[..], l, pb.layout, c, size);
        DropChunk(c, size, m0, l0);
        return false, alive;
      }
      ghost var m1 := pb.mem[..];
      BetweenHeader(m1, pb.layout, v, c, q, count, metadata);
      Relist(q, num, c, count);
      ChunkSucceeds(m0, m, l0, l, v0, c, q);
      SparesBoth(m0, m1, pb.mem[..], l0, pb.layout, pb.layout, v0, v);
      ok := true;
    }

    /** The number of chunks past the first, and the bytes of the next, which doubles the capacity. */
    method NextChunk() returns (num: nat, bytes: nat)
      requires Valid() && v.block != 0
      ensures num == |v.chunks| <= MAX_CHUNKS && bytes == Begin(v.first, num + 1) * v.stride >= HEADER && bytes % 8 == 0
    {
      hide Layout.Tiled, Layout.Listed, Agrees, Pow2, Holds;
      HoldsSizes(pb.mem[..], pb.layout, v, Count(), metadata);
      HoldsChunks(pb.mem[..], pb.layout, v, Count(), metadata);
      var block, first, dir, n := Load();
      num := n;
      var capacity := first * Pow2(num);
      bytes := capacity * stride;
      NextBytes(first, num, stride);
    }

    /** Doubles the capacity with one more chunk. */
    method AddChunk() returns (ok: bool, alive: bool)
      requires Valid() && v.block != 0
      modifies this`v, pb, pb.mem
      ensures alive ==> Valid() && Unharmed() && Count() == old(Count()) && Contents() == old(Contents())
      ensures alive ==> Extends(old(v), v) && v.block != 0 && |v.chunks| == |old(v).chunks| + if ok then 1 else 0
      ensures alive ==> Succeeds(old(pb.layout), old(v), v)
      ensures Yields(VectorOutcomes.NextChunk(old(pb.St()), old(v), pb.config), ok, alive, pb.St(), v)
    {
      hide Layout.Tiled, Layout.Listed, Agrees, Pow2, Stored, Written, Spares, Elements, Room, Vec.Owns, Begin,
        Allocation, ListedChunk;
      ghost var m0, l0, v0, count := pb.mem[..], pb.layout, v, Count();
      GrownNot(m0, l0, v);
      FirstElements(m0, v, count);
      var num, bytes := NextChunk();
      if num == MAX_CHUNKS || bytes > WORD_LIMIT - 1 {
        return false, true;
      }
      var c;
      ghost var s := pb.St();
      c, alive := NewStorage(bytes);
      NextChunkIs(s, v, pb.config, c, alive, pb.St());
      if !alive || c == 0 {
        return false, alive;
      }
      FirstElements(pb.mem[..], v0, count);
      ok, alive := ListChunk(num, c, bytes, m0, l0);
      if alive {
        FirstElements(pb.mem[..], v0, count);
        SameElements(pb.mem[..], v0, v, count);
      }
    }

    /** Adds chunks until there is room for n elements; `m0`, `l0` and `v0` are from before the vector grew. */
    method GrowChunks(n: nat, ghost m0: seq<byte>, ghost l0: Layout, ghost v0: Vec) returns (ok: bool, alive: bool)
      requires Valid() && v.block != 0 && GrownFrom(m0, l0, v0, pb.mem[..], pb.layout, v)
      modifies this`v, pb, pb.mem
      ensures alive ==> Valid() && Count() == old(Count()) && Contents() == old(Contents())
      ensures alive ==> (pb.mem == old(pb.mem) || fresh(pb.mem)) && pb.message == old(pb.message)
      ensures alive ==> pb.metadata == old(pb.metadata)
      ensures alive ==> GrownFrom(m0, l0, v0, pb.mem[..], pb.layout, v) && v.block != 0
      ensures alive && ok ==> n <= v.Capacity()
      ensures Yields(MoreChunks(old(pb.St()), old(v), n, pb.config), ok, alive, pb.St(), v)
    {
      hide Layout.Tiled, Layout.Listed, Agrees, Pow2, Stored, Written, Elements, Begin, GrownFrom, Spares, Succeeds,
        Extends;
      alive := true;
      while true
        invariant Valid() && v.block != 0 && Count() == old(Count()) && Contents() == old(Contents())
        invariant (pb.mem == old(pb.mem) || fresh(pb.mem)) && pb.message == old(pb.message)
        invariant pb.metadata == old(pb.metadata)
        invariant GrownFrom(m0, l0, v0, pb.mem[..], pb.layout, v)
        invariant MoreChunks(pb.St(), v, n, pb.config) == MoreChunks(old(pb.St()), old(v), n, pb.config)
        decreases MAX_CHUNKS + 1 - |v.chunks|
      {
        var block, first, dir, num := Load();
        if first * Pow2(num) >= n {
          return true, true;
        }
        ghost var m1, l1, v1 := pb.mem[..], pb.layout, v;
        HoldsChunks(m1, l1, v1, Count(), metadata);
        ok, alive := AddChunk();
        if !alive {
          return;
        }
        GrownOn(m0, l0, v0, m1, l1, v1, pb.mem[..], pb.layout, v);
        if !ok {
          return;
        }
      }
    }

    /**
    Grows the storage to hold at least n elements.  If there is none yet, its first chunk holds `first`
    elements.  No element moves, even if the buffer does; if there is no space the vector keeps its elements.
    */
    method Grow(n: nat, first: nat) returns (ok: bool, alive: bool)
      requires Valid() && 0 < first
      modifies this`v, pb, pb.mem
      ensures alive ==> Valid() && Unharmed() && Count() == old(Count()) && Contents() == old(Contents())
      ensures alive ==> Extends(old(v), v)
      ensures alive ==> Succeeds(old(pb.layout), old(v), v)
      ensures alive && ok ==> n <= v.Capacity() && v.block != 0
      ensures Yields(Growing(old(pb.St()), old(v), n, first, pb.config), ok, alive, pb.St(), v)
    {
      hide Layout.Tiled, Layout.Listed, Agrees, Pow2, Holds, Spares, Elements, Vec.Owns, Begin, VectorChunks.End,
        Succeeds;
      ghost var m0, l0, v0, count := pb.mem[..], pb.layout, v, Count();
      HoldsSizes(m0, l0, v, count, metadata);
      GrownNot(m0, l0, v);
      HeaderBlock(m0, l0, v, count, metadata);
      var block := pb.Load32(header + 4);
      if block == 0 {
        ok, alive := Start(first);
        if !alive || !ok {
          return;
        }
        NoElements(m0, v0, pb.mem[..], v);
      }
      ok, alive := GrowChunks(n, m0, l0, v0);
    }

    // ---- Adding ----

    /** How many elements the first chunk of a vector that was not reserved holds. */
    method DefaultFirstCapacity() returns (first: word)
      requires 0 < stride
      ensures first == DefaultFirst(stride)
    {
      first := if 64 / stride < 1 then 1 else if 64 / stride > 16 then 16 else 64 / stride;
    }

    /** Makes the empty element `index` at its place p and counts it. */
    method PutEmpty(index: word, p: nat)
      requires Valid() && index == Count() < v.Capacity() && p == v.At(index) && v.block != 0
      modifies pb.mem
      ensures Valid() && Within() && Contents() == old(Contents()) + [Empty(stride, metadata)]
    {
      hide Layout.Tiled, Layout.Listed, Agrees, Pow2, Stored, Written, ChunkOf, Vec.RunAt, Spares, Elements, Begin,
        VectorChunks.End, Vec.Capacity;
      ghost var m := pb.mem[..];
      HoldsSizes(m, pb.layout, v, Count(), metadata);
      PlaceOf(m, pb.freeList, pb.bitmaps, pb.layout, v, index);
      StoreElement(ChunkOf(v.first, index), index, p, Empty(stride, metadata));
      ghost var m1 := pb.mem[..];
      SetCount(index + 1);
      SparesOn(m, m1, pb.mem[..], pb.layout, v);
    }

    /** Makes room for one more element: there is some in the first chunk, or the storage grows. */
    method MakePlace() returns (ok: bool, alive: bool)
      requires Valid()
      modifies this`v, pb, pb.mem
      ensures alive ==> Valid() && Unharmed() && Count() == old(Count()) && Contents() == old(Contents())
      ensures alive ==> Extends(old(v), v)
      ensures alive ==> Succeeds(old(pb.layout), old(v), v)
      ensures alive && ok ==> Count() < v.Capacity()
      ensures Yields(Placing(old(pb.St()), old(v), old(Count()), pb.config), ok, alive, pb.St(), v)
    {
      hide Layout.Tiled, Layout.Listed, Agrees, Pow2, Holds, Spares, Elements, Begin, VectorChunks.End, Succeeds,
        Extends, Vec.Capacity, Growing, DefaultFirst, Get32, Stored, Written;
      GrownNot(pb.mem[..], pb.layout, v);
      HoldsSizes(pb.mem[..], pb.layout, v, Count(), metadata);
      HoldsWords(pb.mem[..], pb.layout, v, Count(), metadata);
      var index := Count();
      var block: nat := pb.Load32(header + 4);
      if block != 0 && index < pb.Load32(block + 4) {
        return true, true;
      }
      var first := DefaultFirstCapacity();
      ok, alive := Grow(index + 1, first);
    }

    /** Appends an empty element and returns its offset, or 0 if there is no space. */
    method AddElement() returns (p: nat, alive: bool)
      requires Valid()
      modifies this`v, pb, pb.mem
      ensures alive ==> Valid() && Unharmed() && Extends(old(v), v) && Succeeds(old(pb.layout), old(v), v)
      ensures alive ==> Contents() == if p == 0 then old(Contents()) else old(Contents()) + [Empty(stride, metadata)]
      ensures Yields(Placing(old(pb.St()), old(v), old(Count()), pb.config), p != 0, alive, pb.St(), v)
      ensures var r := Adding(old(Abstract()), Empty(stride, metadata), pb.config);
          alive == !r.Crash?
          && (alive ==> (p != 0) == r.Done? && Abstract() == r.x)
      ensures alive && p != 0 ==> old(Count()) < v.Capacity() && p == v.At(old(Count()))
      ensures alive && old(v).block == 0 && v.block != 0 ==> FillsFirst(v.first, stride)
    {
      hide Layout.Tiled, Layout.Listed, Agrees, Pow2, Stored, Written, Spares, Elements, Begin, VectorChunks.End,
        Succeeds, Extends, Vec.Capacity,
        Vec.At;
      ghost var m0, l0, v0 := pb.mem[..], pb.layout, v;
      HoldsSizes(m0, l0, v, Count(), metadata);
      PlacedFirst(pb.St(), v, Count(), pb.config);
      var ok;
      ok, alive := MakePlace();
      if !alive || !ok {
        return 0, alive;
      }
      var index := Count();
      p := ElementAt(index);
      AtInside(pb.layout, v, index);
      ghost var m1, l1, v1 := pb.mem[..], pb.layout, v;
      PutEmpty(index, p);
      GrownWithin(m0, l0, v0, m1, l1, v1, pb.mem[..]);
    }

    /** Makes room for n elements. */
    method Reserve(n: nat) returns (ok: bool, alive: bool)
      requires Valid()
      modifies this`v, pb, pb.mem
      ensures alive ==> Valid() && Unharmed() && Count() == old(Count()) && Contents() == old(Contents())
      ensures alive ==> Extends(old(v), v)
      ensures alive ==> Succeeds(old(pb.layout), old(v), v)
      ensures alive && ok ==> n <= v.Capacity()
      ensures Yields(Reserving(old(pb.St()), old(v), n, pb.config), ok, alive, pb.St(), v)
      ensures alive && old(v).block == 0 && v.block != 0 ==> v.first == n
      ensures old(v).block != 0 && n <= old(v).Capacity() ==> alive && ok && v == old(v) && pb.St() == old(pb.St())
    {
      hide Layout.Tiled, Layout.Listed, Agrees, Pow2, Stored, Written, Spares, Elements, Growing, Vec.Capacity, Extends,
        Succeeds;
      HoldsSizes(pb.mem[..], pb.layout, v, Count(), metadata);
      ReservedFirst(pb.St(), v, n, pb.config);
      if v.block != 0 && n <= v.Capacity() { ReservedAlready(pb.St(), v, n, pb.config); }
      if n == 0 {
        GrownNot(pb.mem[..], pb.layout, v);
        return true, true;
      }
      ok, alive := Grow(n, n);
    }

    method RunStart(ghost k: nat, chunk: nat, begin: nat, index: nat) returns (at: nat)
      requires v.stride == stride && k <= |v.chunks| && chunk == v.Base(k) && begin == Begin(v.first, k) <= index
      ensures at == v.RunAt(k, index)
    {
      at := chunk + (index - begin) * stride;
    }

    /** Stores values as the elements from `index` up to `to`, which are in chunk k; the first
        value is element `from`. */
    method StoreRun(ghost k: nat, chunk: nat, begin: nat, index: nat, to: nat, from: nat, values: seq<seq<byte>>,
          ghost e: seq<seq<byte>>)
      requires Valid() && v.block != 0 && k <= |v.chunks| && chunk == v.Base(k) && begin == Begin(v.first, k)
      requires begin <= index <= to <= VectorChunks.End(v.first, k) && to <= v.Capacity() == |e| && from <= index
      requires to - from <= |values|
      requires AllLong(values, stride) && All() == Filled(e, values, from, index)
      modifies pb.mem
      ensures Valid() && Within() && Count() == old(Count()) && All() == Filled(e, values, from, to)
    {
      hide Layout.Tiled, Layout.Listed, Agrees, Pow2, Holds, ChunkOf, Vec.RunAt, All, Spares, Begin, VectorChunks.End,
        Vec.Capacity, Filled;
      ghost var m := pb.mem[..];
      SparesSame(m, pb.layout, v);
      HoldsSizes(m, pb.layout, v, Count(), metadata);
      var i := index;
      var at: nat := RunStart(k, chunk, begin, i);
      while i < to
        invariant index <= i <= to && at == v.RunAt(k, i)
        invariant Valid() && Count() == old(Count())
        invariant All() == Filled(e, values, from, i)
        invariant Within()
      {
        ghost var m1 := pb.mem[..];
        StoreElement(k, i, at, values[i - from]);
        SparesOn(m, m1, pb.mem[..], pb.layout, v);
        FilledOne(e, values, from, i);
        NextInRun(v, k, i);
        i, at := i + 1, at + stride;
      }
    }

    /** Stores values as the elements from `from` up to `end`, walking the chunks. */
    method Fill(from: nat, end: nat, values: seq<seq<byte>>)
      requires Valid() && v.block != 0 && from < end <= v.Capacity() && |values| == end - from
      requires AllLong(values, stride)
      modifies pb.mem
      ensures Valid() && Within() && Count() == old(Count()) && All() == Filled(old(All()), values, from, end)
    {
      hide Layout.Tiled, Layout.Listed, Agrees, Pow2, Stored, Written, ChunkOf, Vec.RunAt, Spares, Begin,
        VectorChunks.End, Filled, Elements;
      ghost var e, m := All(), pb.mem[..];
      SparesSame(m, pb.layout, v);
      FilledNone(e, values, from);
      var block, first, dir, num := Load();
      var k: nat, begin: nat, capacity: nat, chunk: nat := 0, 0, first, block + BLOCK_HEADER;
      ChunkZero(first);
      var index := from;
      while index < end
        invariant from <= index <= end && v == old(v) && v.block != 0
        invariant k <= |v.chunks| && begin == Begin(first, k) && capacity == ChunkSize(first, k) && chunk == v.Base(k)
        invariant begin <= index
        invariant Valid() && Within() && Count() == old(Count()) && All() == Filled(e, values, from, index)
        decreases end - index
      {
        k, begin, capacity, chunk := Advance(k, begin, capacity, chunk, first, index);
        ghost var m1 := pb.mem[..];
        var to := Min(end, begin + capacity);
        StoreRun(k, chunk, begin, index, to, from, values, e);
        SparesOn(m, m1, pb.mem[..], pb.layout, v);
        index := to;
      }
    }

    /** Goes on from chunk k to the one that holds element `index`. */
    method Advance(k0: nat, begin0: nat, capacity0: nat, chunk0: nat, first: nat, index: nat)
      returns (k: nat, begin: nat, capacity: nat, chunk: nat)
      requires Valid() && v.block != 0 && first == v.first > 0 && index < v.Capacity() && begin0 <= index
      requires k0 <= |v.chunks| && begin0 == Begin(first, k0) && capacity0 == ChunkSize(first, k0)
      requires chunk0 == v.Base(k0)
      ensures k <= |v.chunks| && begin == Begin(first, k) && capacity == ChunkSize(first, k) && chunk == v.Base(k)
      ensures begin <= index < begin + capacity && begin + capacity == VectorChunks.End(first, k) <= v.Capacity()
    {
      hide Layout.Tiled, Layout.Listed, Agrees, Pow2, Stored, Written, ChunkOf, Begin, VectorChunks.End, ChunkSize;
      k, begin, capacity, chunk := k0, begin0, capacity0, chunk0;
      while index - begin >= capacity
        invariant k <= |v.chunks| && begin == Begin(first, k) && capacity == ChunkSize(first, k) && chunk == v.Base(k)
        invariant begin <= index
        decreases |v.chunks| - k
      {
        ChunkEnds(first, k);
        WalkOn(v, k + 1, begin + capacity, index + 1);
        CapacityIsWordIn(k);
        begin := begin + capacity;
        capacity := Shl32(first, k);
        k := k + 1;
        chunk := ChunkAt(k);
      }
      ChunkEnds(first, k);
      EndBelow(v, k);
    }

    /** Appends n elements made in place, all at once; `values` are the finished elements. */
    method AppendElements(n: word, values: seq<seq<byte>>) returns (ok: bool, alive: bool)
      requires Valid() && |values| == n && AllLong(values, stride)
      modifies this`v, pb, pb.mem
      ensures alive ==> Valid() && Unharmed() && Extends(old(v), v) && Succeeds(old(pb.layout), old(v), v)
      ensures Yields(Extending(old(pb.St()), old(v), old(Count()), n, pb.config), ok, alive, pb.St(), v)
      ensures var r := Appending(old(Abstract()), values, pb.config);
          alive == !r.Crash?
          && (alive ==> ok == r.Done? && Abstract() == r.x)
      ensures alive ==> Contents() == if ok then old(Contents()) + values else old(Contents())
      ensures alive && old(v).block == 0 && v.block != 0 ==> v.first == n
      ensures n > 0 && old(Count()) + n >= 0x1_0000_0000 ==> alive && !ok && v == old(v) && pb.NothingLeft()
    {
      hide Layout.Tiled, Layout.Listed, Agrees, Pow2, Stored, Written, Spares, Elements, Succeeds, Extends, Filled,
        Kept, Keeps, Reserving;
      ghost var m0, l0, v0, count := pb.mem[..], pb.layout, v, Count();
      GrownNot(m0, l0, v);
      HoldsSizes(m0, l0, v, count, metadata);
      if n == 0 {
        return true, true;
      }
      var from := Count();
      var end := from + n;
      if end > WORD_LIMIT - 1 {
        FailPasses(pb.St(), m0);
        pb.MarkAllocationFailed();
        NewStorageHolds(m0, pb.mem[..], l0, pb.layout, v, count, metadata);
        FailedHeads(pb.mem[..], pb.freeList, pb.bitmaps, pb.St());
        return false, true;
      }
      ok, alive := Reserve(end);
      if !alive || !ok {
        return;
      }
      ghost var m1, l1, v1, e := pb.mem[..], pb.layout, v, All();
      Fill(from, end, values);
      ghost var m2 := pb.mem[..];
      SetCount(end);
      SparesOn(m1, m2, pb.mem[..], pb.layout, v);
      FilledAll(e, values, from, end);
      GrownWithin(m0, l0, v0, m1, l1, v1, pb.mem[..]);
    }

    /** The empty element `index`, at p, is made and counted, and then given a block of `size` bytes. */
    method AppendAttached(index: word, p: nat, size: word) returns (ok: bool, alive: bool)
      requires Valid() && index == Count() < v.Capacity() && p == v.At(index) && v.block != 0
      requires 0 < size <= MAX_REQUEST
      modifies pb, pb.mem
      ensures alive ==> Valid() && Unharmed()
      ensures var r := Allocation(old(pb.St()), size, true, pb.config, true);
        && alive == !r.Aborted?
        && (alive ==> ok == r.Block? && pb.St() == r.s)
        && (alive ==>
          Contents() ==
          old(Contents()) + [if r.Block? then Attached(Empty(stride, metadata), r.p) else Empty(stride, metadata)])
    {
      hide Layout.Tiled, Layout.Listed, Agrees, Pow2, Stored, Written, ChunkOf, Vec.RunAt, Vec.At, Spares, Begin,
        VectorChunks.End, Vec.Capacity, Allocation, Attached;
      ghost var m := pb.mem[..];
      HoldsSizes(m, pb.layout, v, Count(), metadata);
      PlaceOf(m, pb.freeList, pb.bitmaps, pb.layout, v, index);
      AllocationIsOk(pb.St(), size, true, pb.config, true);
      PutEmpty(index, p);
      ghost var m1, l1 := pb.mem[..], pb.layout;
      var q;
      q, alive := NewStorage(size);
      if alive {
        SparesBoth(m, m1, pb.mem[..], l1, l1, pb.layout, v, v);
      }
      ok := q != 0;
      if !alive || !ok {
        return;
      }
      ghost var m2 := pb.mem[..];
      StoreElement(ChunkOf(v.first, index), index, p, Attached(Empty(stride, metadata), q));
      SparesBoth(m, m2, pb.mem[..], l1, pb.layout, pb.layout, v, v);
    }

    /** Chunk k, from element `begin` on, has `capacity` elements and starts at `chunk`. */
    ghost predicate Walking(k: nat, begin: nat, capacity: nat, chunk: nat)
      reads this
    {
      && v.block != 0 && k <= |v.chunks| && begin == Begin(v.first, k) && capacity == ChunkSize(v.first, k)
      && chunk == v.Base(k)
    }

    /** Appends one such element, in the chunk that holds it or in one after that. */
    method AttachNext(k0: nat, begin0: nat, capacity0: nat, chunk0: nat, first: nat, index: word, size: word,
        ghost m0: seq<byte>, ghost l0: Layout, ghost v0: Vec)
      returns (k: nat, begin: nat, capacity: nat, chunk: nat, ok: bool, alive: bool)
      requires Valid() && Walking(k0, begin0, capacity0, chunk0) && first == v.first > 0
      requires begin0 <= index == Count() < v.Capacity() && 0 < size <= MAX_REQUEST
      requires GrownFrom(m0, l0, v0, pb.mem[..], pb.layout, v)
      modifies pb, pb.mem
      ensures alive ==> Valid() && Walking(k, begin, capacity, chunk) && begin <= index
      ensures alive ==> GrownFrom(m0, l0, v0, pb.mem[..], pb.layout, v) && (pb.mem == old(pb.mem) || fresh(pb.mem))
      ensures alive ==> pb.message == old(pb.message) && pb.metadata == old(pb.metadata)
      ensures var r := Allocation(old(pb.St()), size, true, pb.config, true);
        && alive == !r.Aborted?
        && (alive ==> ok == r.Block? && pb.St() == r.s)
        && (alive ==>
          Contents() ==
          old(Contents()) + [if r.Block? then Attached(Empty(stride, metadata), r.p) else Empty(stride, metadata)])
    {
      hide Layout.Tiled, Layout.Listed, Agrees, Pow2, Holds, Spares, Elements, Succeeds, Extends, GrownFrom, ChunkOf,
        Begin, VectorChunks.End, Vec.At, Vec.RunAt, Vec.Capacity, ChunkSize, Allocation, Attached;
      k, begin, capacity, chunk := Advance(k0, begin0, capacity0, chunk0, first, index);
      var p := RunStart(k, chunk, begin, index);
      InRun(v, k, index, index);
      ghost var m1, l1 := pb.mem[..], pb.layout;
      ok, alive := AppendAttached(index, p, size);
      if alive { GrownOver(m0, l0, v0, m1, l1, v, pb.mem[..], pb.layout); }
    }

    /** Appends such elements into the room there is for them, walking the chunks, until there is no space for one. */
    method AttachEach(sizes: seq<word>, ghost m0: seq<byte>, ghost l0: Layout, ghost v0: Vec)
      returns (ok: bool, alive: bool)
      requires Valid() && v.block != 0 && Count() + |sizes| <= v.Capacity() && Requests(sizes)
      requires GrownFrom(m0, l0, v0, pb.mem[..], pb.layout, v)
      modifies pb, pb.mem
      ensures alive ==> Valid() && GrownFrom(m0, l0, v0, pb.mem[..], pb.layout, v)
      ensures alive ==> (pb.mem == old(pb.mem) || fresh(pb.mem)) && pb.message == old(pb.message)
      ensures alive ==> pb.metadata == old(pb.metadata)
      ensures var r := Attaching(old(Abstract()), Empty(stride, metadata), sizes, pb.config);
        alive == !r.Crash? && (alive ==> ok == r.Done? && Abstract() == r.x)
    {
      hide Layout.Tiled, Layout.Listed, Agrees, Pow2, Holds, Spares, Elements, Succeeds, Extends, GrownFrom, ChunkOf,
        Begin, VectorChunks.End, Vec.At, Vec.RunAt, Vec.Capacity, ChunkSize, Allocation, Attaching, Attached;
      HoldsSizes(pb.mem[..], pb.layout, v, Count(), metadata);
      ghost var x, e := Abstract(), Empty(stride, metadata);
      AttachingNone(x, e, pb.config);
      var from := Count();
      var end := from + |sizes|;
      var block, first, dir, num := Load();
      var k: nat, begin: nat, capacity: nat, chunk: nat := 0, 0, first, block + BLOCK_HEADER;
      ChunkZero(first);
      var index := from;
      ok, alive := true, true;
      while index < end
        invariant from <= index <= end && v == x.v && v.block != 0 && first == v.first && ok && alive
        invariant Valid() && Count() == index && GrownFrom(m0, l0, v0, pb.mem[..], pb.layout, v)
        invariant (pb.mem == old(pb.mem) || fresh(pb.mem)) && pb.message == old(pb.message)
        invariant pb.metadata == old(pb.metadata)
        invariant Walking(k, begin, capacity, chunk) && begin <= index
        invariant Attaching(Abstract(), e, sizes[index - from..], pb.config) == Attaching(x, e, sizes, pb.config)
      {
        AttachingOne(Abstract(), e, sizes[index - from..], pb.config);
        assert sizes[index - from..][1..] == sizes[index + 1 - from..];
        k, begin, capacity, chunk, ok, alive :=
          AttachNext(k, begin, capacity, chunk, first, index, sizes[index - from], m0, l0, v0);
        if !alive || !ok {
          return;
        }
        index := index + 1;
      }
      AttachingNone(Abstract(), e, pb.config);
    }

    /**
    Appends empty elements one after the other into storage made for all of them.  Each is given a block of its
    own before the next, which can move the buffer.  It stops at the first for which there is no space.
    */
    method AppendAllAttached(sizes: seq<word>) returns (ok: bool, alive: bool)
      requires Valid() && |sizes| < WORD_LIMIT && Requests(sizes)
      modifies this`v, pb, pb.mem
      ensures alive ==> Valid() && Unharmed() && Extends(old(v), v) && Succeeds(old(pb.layout), old(v), v)
      ensures var r := AppendingAttached(old(Abstract()), Empty(stride, metadata), sizes, pb.config);
        alive == !r.Crash? && (alive ==> ok == r.Done? && Abstract() == r.x)
    {
      hide Layout.Tiled, Layout.Listed, Agrees, Pow2, Stored, Written, Spares, Elements, Succeeds, Extends,
        Reserving, Attaching, Requests;
      ghost var m0, l0, v0, count := pb.mem[..], pb.layout, v, Count();
      GrownNot(m0, l0, v);
      HoldsSizes(m0, l0, v, count, metadata);
      if |sizes| == 0 {
        AttachingNone(Abstract(), Empty(stride, metadata), pb.config);
        return true, true;
      }
      var end := Count() + |sizes|;
      if end > WORD_LIMIT - 1 {
        FailPasses(pb.St(), m0);
        pb.MarkAllocationFailed();
        NewStorageHolds(m0, pb.mem[..], l0, pb.layout, v, count, metadata);
        return false, true;
      }
      ok, alive := Reserve(end);
      if !alive || !ok {
        return;
      }
      ok, alive := AttachEach(sizes, m0, l0, v0);
    }

    // ---- Inserting and erasing ----

    /**
    Inserts an empty element at `index` and returns its offset.  Whether there was space for one more element is
    not looked at: if there was none, the last element makes room and is lost, and with no last element, or at
    the end, the moving that follows runs away over the buffer.  It is left out here: `defined` is false.
    */
    method InsertElement(index: nat) returns (p: nat, alive: bool, added: bool, defined: bool)
      requires Valid() && index <= Count()
      modifies this`v, pb, pb.mem
      ensures alive && defined ==> Valid() && Unharmed() && Extends(old(v), v)
      ensures alive && defined ==> index < v.Capacity() && p == v.At(index)
      ensures var r := Inserting(old(Abstract()), index, Empty(stride, metadata), pb.config);
        && (alive <==> !r.Stopped?)
        && (alive ==> added == Adding(old(Abstract()), Empty(stride, metadata), pb.config).Done?)
        && (alive ==> (defined <==> r.Inserted?))
        && (alive && defined ==> Abstract() == r.x)
    {
      hide Layout.Tiled, Layout.Listed, Agrees, Pow2, Stored, Written, Spares, Elements, Succeeds, Extends, Vec.At;
      ghost var m0, l0, v0, e := pb.mem[..], pb.layout, v, Contents();
      HoldsSizes(m0, l0, v, Count(), metadata);
      var q;
      q, alive := AddElement();
      added := q != 0;
      if !alive || index >= Count() {
        return 0, alive, added, false;
      }
      defined := true;
      ghost var m1, l1, v1 := pb.mem[..], pb.layout, v;
      p := OpenElementAt(index);
      GrownWithin(m0, l0, v0, m1, l1, v1, pb.mem[..]);
      InsertedAt(e, index, Empty(stride, metadata));
    }

    /** Erases the elements from `first` up to `last`, which own nothing. */
    method Erase(first: nat, last: nat)
      requires Valid() && first <= last <= Count()
      modifies pb.mem
      ensures Valid() && Within()
      ensures Contents() == old(Contents())[..first] + old(Contents())[last..]
    {
      hide Layout.Tiled, Layout.Listed, Agrees, Pow2, Holds, Spares, Elements;
      SparesSame(pb.mem[..], pb.layout, v);
      if last - first != 0 {
        CloseElementsAt(first, last - first);
      }
    }

    // ---- Releasing ----

    /** Frees block j of the vector's own, after those before it. */
    method FreeOne(p: nat, ghost j: nat, ghost s0: State, ghost m0: seq<byte>)
      requires pb.Valid() && s0.Inv() && |m0| == s0.l.full && Freeable(s0.l, v.Blocks()) && j < |v.Blocks()|
      requires p == v.Blocks()[j]
      requires Freeable(s0.l, v.Blocks()[..j]) && pb.St() == ReleaseAll(s0, v.Blocks()[..j])
      requires KeptBut(m0, pb.mem[..], s0.l, v.Blocks()[..j])
      requires Room(s0.l, p, HEADER)
      modifies pb, pb.mem
      ensures pb.Valid() && pb.mem == old(pb.mem) && pb.message == old(pb.message) && pb.metadata == old(pb.metadata)
      ensures Freeable(s0.l, v.Blocks()[..j + 1]) && pb.St() == ReleaseAll(s0, v.Blocks()[..j + 1])
      ensures KeptBut(m0, pb.mem[..], s0.l, v.Blocks()[..j + 1])
    {
      hide Layout.Tiled, Layout.Listed, Agrees, Kept, KeptBut, Freeable, Release, Different, Vec.Blocks, Room;
      ghost var t, m := pb.St(), pb.mem[..];
      FreedMore(s0, t, v.Blocks(), j);
      ReleaseIsOk(t, p);
      FreeableIn(s0, t, p, v.Blocks(), j);
      pb.FreeAt(p);
      ReleasedOne(s0, t, pb.St(), v.Blocks(), j, m0, m, pb.mem[..]);
    }

    /** Frees each further chunk, from the first listed in the directory on. */
    method FreeChunks(dir: nat, num: nat, ghost s0: State, ghost m0: seq<byte>, ghost count: nat)
      requires pb.Valid() && pb.St() == s0 && pb.mem[..] == m0 && Holds(m0, s0.l, v, count, metadata) && v.block != 0
      requires dir == v.dir && num == |v.chunks|
      modifies pb, pb.mem
      ensures pb.Valid() && pb.mem == old(pb.mem) && pb.message == old(pb.message) && pb.metadata == old(pb.metadata)
      ensures Freeable(s0.l, v.chunks) && pb.St() == ReleaseAll(s0, v.chunks) && KeptBut(m0, pb.mem[..], s0.l, v.chunks)
    {
      hide Layout.Tiled, Layout.Listed, Agrees, KeptBut, Freeable, Different, Vec.Blocks, Room, Stored, Written,
        ReleaseAll, Freed;
      OwnFreeable(s0.l, v);
      BlocksOrder(v);
      NoneFreed(s0, v, m0);
      var k := 1;
      while k <= num
        invariant 1 <= k <= num + 1 && pb.Valid() && pb.mem == old(pb.mem) && pb.message == old(pb.message)
        invariant pb.metadata == old(pb.metadata)
        invariant Freeable(s0.l, v.Blocks()[..k - 1]) && pb.St() == ReleaseAll(s0, v.Blocks()[..k - 1])
        invariant KeptBut(m0, pb.mem[..], s0.l, v.Blocks()[..k - 1])
      {
        DirectoryStays(s0, v, k, m0, pb.mem[..], count, metadata);
        FreeOne(pb.Load32(dir + 4 * k), k - 1, s0, m0);
        k := k + 1;
      }
    }

    /** Frees the vector's own blocks, in their order. */
    method FreeOwn(ghost s0: State, ghost m0: seq<byte>, ghost count: nat)
      requires pb.Valid() && pb.St() == s0 && pb.mem[..] == m0 && Valid() && v.block != 0 && count == Count()
      modifies pb, pb.mem
      ensures pb.Valid() && pb.mem == old(pb.mem) && pb.message == old(pb.message) && pb.metadata == old(pb.metadata)
      ensures Freeable(s0.l, v.Blocks()) && pb.St() == ReleaseAll(s0, v.Blocks())
      ensures KeptBut(m0, pb.mem[..], s0.l, v.Blocks())
    {
      hide Layout.Tiled, Layout.Listed, Agrees, KeptBut, Freeable, Different, Room, Stored, Written, ReleaseAll, Freed,
        Vec.Blocks;
      OwnFreeable(s0.l, v);
      var block, first, dir, num := Load();
      BlocksOrder(v);
      FreeChunks(dir, num, s0, m0, count);
      if dir != 0 { FreeOne(dir, num, s0, m0); }
      FreeOne(block, |v.Blocks()| - 1, s0, m0);
    }

    /** Frees each chunk, the directory and the block, and leaves the vector empty.  Its elements own nothing. */
    method ReleaseVector()
      requires Valid()
      modifies this`v, pb, pb.mem
      ensures Valid() && Count() == 0 && Contents() == [] && v == old(v).(block := 0, dir := 0, chunks := [])
      ensures pb.mem == old(pb.mem) && pb.message == old(pb.message) && pb.metadata == old(pb.metadata)
      ensures Freeable(old(pb.layout), old(v).Blocks()) && pb.St() == ReleaseAll(old(pb.St()), old(v).Blocks())
      ensures Spares(old(pb.mem[..]), pb.mem[..], old(pb.layout), pb.layout, old(v))
      ensures forall o: nat {:trigger Live(pb.layout, o)} {:trigger Live(old(pb.layout), o)} ::
        Live(pb.layout, o) <==>
          Live(old(pb.layout), o)
          && o + 8 !in old(v).chunks && o + 8 != old(v).dir && o + 8 != old(v).block
    {
      hide Layout.Tiled, Layout.Listed, Agrees, KeptBut, Freeable, Different, Room, Stored, Written, ReleaseAll, Freed,
        Spares, Vec.Blocks,
        Elements;
      ghost var s0, m0, count := pb.St(), pb.mem[..], Count();
      HoldsSizes(m0, s0.l, v, count, metadata);
      HeaderBlock(m0, s0.l, v, count, metadata);
      if pb.Load32(header + 4) == 0 {
        NothingToRelease(s0, v);
        SparesSame(m0, s0.l, v);
        ReleasedLive(s0, pb.St(), v);
        return;
      }
      FreeOwn(s0, m0, count);
      ghost var m1 := pb.mem[..];
      ReleasedHome(s0, pb.St(), v, m0, m1, pb.freeList, pb.bitmaps);
      pb.StoreHeader(header, 0, 0);
      ReleasedHolds(s0, pb.St(), v, m0, m1, pb.mem[..], pb.freeList, pb.bitmaps, metadata);
      ReleasedLive(s0, pb.St(), v);
      v := v.(block := 0, dir := 0, chunks := []);
      CountIs(pb.mem[..], pb.layout, v, 0, metadata);
    }
  }

  lemma ReleasedLive(s: State, t: State, v: Vec)
    requires s.Inv() && Freeable(s.l, v.Blocks()) && t == ReleaseAll(s, v.Blocks())
    ensures forall o: nat {:trigger Live(t.l, o)} {:trigger Live(s.l, o)} ::
      Live(t.l, o) <==> Live(s.l, o) && o + 8 !in v.chunks && o + 8 != v.dir && o + 8 != v.block
  {
    hide State.Inv, ReleaseAll, Freeable, Vec.Blocks;
    BlocksOf(v);
  }

  lemma AtFirst(v: Vec, index: nat)
    requires v.block != 0 && index < v.first && index < v.Capacity()
    ensures v.At(index) == v.block + BLOCK_HEADER + index * v.stride
  {
  }

  /** The offsets of the first n elements. */
  function AllAt(v: Vec, n: nat): (r: seq<nat>)
    requires n <= v.Capacity()
    ensures |r| == n
  {
    seq(n, i requires 0 <= i < n => v.At(i))
  }

  lemma RoomInChunk(v: Vec, k: nat, n: nat)
    requires v.block != 0 && k <= |v.chunks| && n <= ChunkSize(v.first, k)
    ensures Begin(v.first, k) + n <= VectorChunks.End(v.first, k) <= v.Capacity()
  {
    EndMonotone(v.first, k, |v.chunks|);
  }

  lemma OneMoreAt(v: Vec, k: nat, n: nat, i: nat)
    requires v.block != 0 && v.first > 0 && k <= |v.chunks| && n == Begin(v.first, k)
    requires n + i < VectorChunks.End(v.first, k) <= v.Capacity()
    ensures AllAt(v, n + i + 1) == AllAt(v, n + i) + [v.Base(k) + i * v.stride]
  {
    hide ChunkOf, Pow2, Vec.At, Begin, VectorChunks.End;
    InRun(v, k, n, n + i);
  }

  /** After all of chunk k - 1 there are more elements only in chunk k. */
  lemma WalkOn(v: Vec, k: nat, n: nat, count: nat)
    requires v.block != 0 && v.first > 0 && 1 <= k && n == VectorChunks.End(v.first, k - 1) < count <= v.Capacity()
    ensures k <= |v.chunks| && n == Begin(v.first, k) && ChunkSize(v.first, k) == n
  {
    if k > |v.chunks| { EndMonotone(v.first, |v.chunks|, k - 1); }
    ChunksMeet(v.first, k - 1);
    ChunkSizes(v.first, k);
  }

  /** s with its n elements from a on replaced by those from b on. */
  function CopiedRun<T>(s: seq<T>, a: nat, b: nat, n: nat): (r: seq<T>)
    requires a + n <= |s| && b + n <= |s|
    ensures |r| == |s| && forall i {:trigger r[i]} ::
        0 <= i < |s|
        ==> r[i] == if a <= i < a + n then s[b + (i - a)] else s[i]
  {
    s[..a] + s[b..b + n] + s[a + n..]
  }

  lemma ElementStored(m: seq<byte>, r: seq<byte>, head: nat, heads: seq<nat>, l: Layout, v: Vec, count: nat,
        metadata: nat,
                      k: nat, index: nat, element: seq<byte>)
    requires l.Inv() && Agrees(m, head, heads, l, NONE) && Holds(m, l, v, count, metadata) && v.block != 0
    requires k <= |v.chunks|
    requires InChunk(v.first, k, index) && index < v.Capacity() && |element| == v.stride
    requires OnlyIn(m, r, v.RunAt(k, index), v.RunAt(k, index) + v.stride)
    requires Slice(r, v.RunAt(k, index), v.stride) == element
    ensures Agrees(r, head, heads, l, NONE) && Holds(r, l, v, count, metadata) && Spares(m, r, l, l, v)
    ensures Elements(r, v, v.Capacity()) == Elements(m, v, v.Capacity())[index := element]
  {
    hide Layout.Tiled, Layout.Listed, Agrees, ChunkOf, Pow2, Stored, Written, Spares, Vec.At, Vec.RunAt, Begin,
      VectorChunks.End;
    StoredFirst(l, v);
    OneChunkRun(v, k, index);
    RunInside(l, v, k, index, 1);
    RunSpares(m, r, l, v, count, metadata, k, index, 1);
    WriteAgrees(m, r, head, heads, l, NONE, ChunkTile(v, k), v.RunAt(k, index), v.RunAt(k, index) + v.stride);
    forall i | 0 <= i < v.Capacity() && i != index ensures Element(r, v, i) == Element(m, v, i) {
      RunKeepsOthers(m, r, l, v, k, index, 1, v.stride, i);
    }
  }

  lemma OneChunkRun(v: Vec, k: nat, index: nat)
    requires v.block != 0 && v.first > 0 && k <= |v.chunks| && InChunk(v.first, k, index) && index < v.Capacity()
    ensures Begin(v.first, k) <= index && index + 1 <= VectorChunks.End(v.first, k) && v.At(index) == v.RunAt(k, index)
  {
    InRun(v, k, index, index);
  }

  lemma CountIs(m: seq<byte>, l: Layout, v: Vec, count: nat, metadata: nat)
    requires Holds(m, l, v, count, metadata)
    ensures v.header + 8 <= |m| && Get32(m, v.header) == count <= v.Capacity()
  {
  }

  lemma RunsMoved(m: seq<byte>, r: seq<byte>, head: nat, heads: seq<nat>, l: Layout, v: Vec, count: nat, metadata: nat,
                  ka: nat, a: nat, kb: nat, b: nat, n: nat, size: nat)
    requires l.Inv() && Agrees(m, head, heads, l, NONE) && Holds(m, l, v, count, metadata) && v.block != 0
    requires ka <= |v.chunks| && kb <= |v.chunks| && size == n * v.stride
    requires Begin(v.first, ka) <= a && a + n <= VectorChunks.End(v.first, ka)
    requires Begin(v.first, kb) <= b && b + n <= VectorChunks.End(v.first, kb)
    requires v.RunAt(ka, a) + size <= |m| && v.RunAt(kb, b) + size <= |m| && a + n <= v.Capacity()
    requires b + n <= v.Capacity()
    requires r == Move(m, v.RunAt(ka, a), v.RunAt(kb, b), size)
    ensures Agrees(r, head, heads, l, NONE) && Holds(r, l, v, count, metadata) && Spares(m, r, l, l, v)
    ensures Elements(r, v, v.Capacity()) == CopiedRun(Elements(m, v, v.Capacity()), a, b, n)
  {
    hide Layout.Tiled, Layout.Listed, Agrees, ChunkOf, Pow2, Stored, Written, Spares, Vec.RunAt, Begin,
      VectorChunks.End, Move,
      Elements, CopiedRun, Vec.Owns;
    RunInside(l, v, ka, a, n);
    RunSpares(m, r, l, v, count, metadata, ka, a, n);
    WriteAgrees(m, r, head, heads, l, NONE, ChunkTile(v, ka), v.RunAt(ka, a), v.RunAt(ka, a) + size);
    ElementsMoved(m, r, l, v, ka, a, kb, b, n, size);
  }

  lemma ElementsMoved(m: seq<byte>, r: seq<byte>, l: Layout, v: Vec, ka: nat, a: nat, kb: nat, b: nat, n: nat,
        size: nat)
    requires l.Inv() && Stored(l, v) && v.block != 0 && |m| == |r| == l.full
    requires ka <= |v.chunks| && kb <= |v.chunks| && size == n * v.stride
    requires Begin(v.first, ka) <= a && a + n <= VectorChunks.End(v.first, ka)
    requires Begin(v.first, kb) <= b && b + n <= VectorChunks.End(v.first, kb)
    requires v.RunAt(ka, a) + size <= |m| && v.RunAt(kb, b) + size <= |m| && a + n <= v.Capacity()
    requires b + n <= v.Capacity()
    requires r == Move(m, v.RunAt(ka, a), v.RunAt(kb, b), size)
    ensures Elements(r, v, v.Capacity()) == CopiedRun(Elements(m, v, v.Capacity()), a, b, n)
  {
    hide Layout.Tiled, Layout.Listed, ChunkOf, Pow2, Stored, Vec.At, Vec.RunAt, Begin, VectorChunks.End, Move, Element,
      Vec.Capacity;
    var e, f, c := Elements(m, v, v.Capacity()), Elements(r, v, v.Capacity()),
      CopiedRun(Elements(m, v, v.Capacity()), a, b, n);
    assert |c| == |e|;
    forall i | 0 <= i < v.Capacity() ensures f[i] == c[i] {
      RunMoved(m, r, l, v, ka, a, kb, b, n, size, i);
      assert c[i] == if a <= i < a + n then e[b + (i - a)] else e[i];
    }
  }

  lemma NextInRun(v: Vec, k: nat, i: nat)
    requires k <= |v.chunks| && Begin(v.first, k) <= i
    ensures v.RunAt(k, i + 1) == v.RunAt(k, i) + v.stride
  {
    hide Begin;
    Scaling(i - Begin(v.first, k), 1, i - Begin(v.first, k) + 1, v.stride);
  }

  /** The elements while a place is opened: those past `end` have moved up by one. */
  function Opened<T>(e: seq<T>, end: nat, count: nat): (r: seq<T>)
    requires end < count <= |e|
    ensures |r| == |e| && forall i {:trigger r[i]} ::
        0 <= i < |e|
        ==> r[i] == if end < i < count then e[i - 1] else e[i]
  {
    e[..end + 1] + e[end..count - 1] + e[count..]
  }

  lemma OpenedStart<T>(e: seq<T>, end: nat)
    requires end < |e|
    ensures Opened(e, end, end + 1) == e
  {
  }

  lemma OpenedMore<T>(e: seq<T>, low: nat, end: nat, count: nat)
    requires 0 < low <= end < count <= |e|
    ensures CopiedRun(CopiedRun(Opened(e, end, count), low + 1, low, end - low), low, low - 1, 1)
        == Opened(e, low - 1, count)
  {
    hide CopiedRun, Opened;
    var r := CopiedRun(CopiedRun(Opened(e, end, count), low + 1, low, end - low), low, low - 1, 1);
    forall i | 0 <= i < |e| ensures r[i] == Opened(e, low - 1, count)[i] { }
  }

  lemma OpenedEnd<T>(e: seq<T>, index: nat, end: nat, count: nat, x: T)
    requires index <= end < count <= |e|
    ensures CopiedRun(Opened(e, end, count), index + 1, index, end - index)[index := x][..count]
      == e[..count][..index] + [x] + e[..count][index..count - 1]
  {
    hide CopiedRun, Opened;
    var r := CopiedRun(Opened(e, end, count), index + 1, index, end - index)[index := x];
    var t := e[..count][..index] + [x] + e[..count][index..count - 1];
    forall i | 0 <= i < count ensures r[i] == t[i] { }
  }

  lemma PreviousChunk(first: nat, k: nat)
    requires first > 0 && Begin(first, k) > 0
    ensures k > 0 && InChunk(first, k - 1, Begin(first, k) - 1)
  {
    ChunksMeet(first, k - 1);
    ChunkSizes(first, k - 1);
  }

  lemma HoldsSizes(m: seq<byte>, l: Layout, v: Vec, count: nat, metadata: nat)
    requires Holds(m, l, v, count, metadata)
    ensures 8 <= v.stride < WORD_LIMIT && v.stride % 8 == 0 && (v.block != 0 ==> v.first > 0) && |m| == l.full
    ensures v.block == 0 ==> v.dir == 0 && v.chunks == [] && count == 0
    ensures Live(l, v.home) && AtHome(l, v) && !v.Owns(v.home) && v.header + 8 <= |m| && Get32(m, v.header) == count
  {
  }

  function Min(a: nat, b: nat): nat {
    if a < b then a else b
  }

  /** The elements while `count` from `index` are removed: those from `index` up to `to` have moved down. */
  function Closed<T>(e: seq<T>, index: nat, count: nat, to: nat): (r: seq<T>)
    requires index <= to && to + count <= |e|
    ensures |r| == |e| && forall i {:trigger r[i]} ::
        0 <= i < |e|
        ==> r[i] == if index <= i < to then e[i + count] else e[i]
  {
    e[..index] + e[index + count..to + count] + e[to..]
  }

  lemma ClosedStart<T>(e: seq<T>, index: nat, count: nat)
    requires index + count <= |e|
    ensures Closed(e, index, count, index) == e
  {
  }

  lemma ClosedMore<T>(e: seq<T>, index: nat, count: nat, to: nat, run: nat)
    requires index <= to && to + count + run <= |e|
    ensures CopiedRun(Closed(e, index, count, to), to, to + count, run) == Closed(e, index, count, to + run)
  {
    hide CopiedRun, Closed;
    var r := CopiedRun(Closed(e, index, count, to), to, to + count, run);
    forall i | 0 <= i < |e| ensures r[i] == Closed(e, index, count, to + run)[i] { }
  }

  lemma ClosedEnd<T>(e: seq<T>, index: nat, count: nat, size: nat)
    requires index + count <= size <= |e|
    ensures Closed(e, index, count, size - count)[..size - count] == e[..size][..index] + e[..size][index + count..]
  {
    hide Closed;
    var r := Closed(e, index, count, size - count);
    var t := e[..size][..index] + e[..size][index + count..];
    forall i | 0 <= i < size - count ensures r[i] == t[i] { }
  }

  lemma NewStorageHolds(m: seq<byte>, r: seq<byte>, l: Layout, g: Layout, v: Vec, count: nat, metadata: nat)
    requires l.Inv() && Passed(m, r, l, g, -1) && Holds(m, l, v, count, metadata)
    ensures Holds(r, g, v, count, metadata) && Spares(m, r, l, g, v)
    ensures Elements(r, v, v.Capacity()) == Elements(m, v, v.Capacity())
    ensures v.header + 8 <= |r| && Get32(r, v.header) == count
  {
    PassedHolds(m, r, l, g, -1, v, count, metadata);
    PassedSpares(m, r, l, g, -1, v);
  }

  /** w is v with more storage: v's elements are where they were. */
  ghost predicate Extends(v: Vec, w: Vec) {
    && w.home == v.home && w.header == v.header && w.stride == v.stride
    && (v.block != 0 ==> w.block == v.block && w.first == v.first && v.chunks <= w.chunks)
  }

  /** Growing a vector moves no element. */
  lemma ExtendedAt(v: Vec, w: Vec, i: nat)
    requires Extends(v, w) && i < v.Capacity()
    ensures i < w.Capacity() && w.At(i) == v.At(i)
  {
    hide Pow2, ChunkOf;
    EndMonotone(v.first, |v.chunks|, |w.chunks|);
    ChunkBelow(v.first, i, |v.chunks|);
  }


  lemma StartRoom(m: seq<byte>, head: nat, heads: seq<nat>, l: Layout, l0: Layout, p: nat, n: nat, home: nat)
    requires l.Inv() && Agrees(m, head, heads, l, NONE) && Room(l, p, n) && BLOCK_HEADER <= n
    requires !LiveAt(l0, p) && Live(l0, home)
    ensures p + BLOCK_HEADER <= |m| == l.full && 0 < p < WORD_LIMIT && p - HEADER != home
  {
    RoomInside(l, p, n);
  }

  lemma StartSucceeds(l: Layout, v: Vec, w: Vec)
    requires w == v.(block := w.block, first := w.first) && v.block == 0 && v.dir == 0 && v.chunks == []
    requires !LiveAt(l, w.block)
    ensures Succeeds(l, v, w)
  {
  }

  lemma DirIsLive(m: seq<byte>, l: Layout, v: Vec, count: nat, metadata: nat)
    requires l.Inv() && Holds(m, l, v, count, metadata)
    ensures v.dir != 0 ==> LiveAt(l, v.dir) && v.dir < |m|
    ensures v.dir == 0 ==> v.chunks == []
  {
    if v.dir != 0 { RoomInside(l, v.dir, 4 * (|v.chunks| + 1)); }
  }

  lemma BetweenHeader(m: seq<byte>, g: Layout, v: Vec, c: nat, q: nat, count: nat, metadata: nat)
    requires Between(m, g, v, c, q, count, metadata)
    ensures v.header + 8 <= |m| && q >= HEADER
  {
  }

  lemma BetweenSizes(m: seq<byte>, head: nat, heads: seq<nat>, g: Layout, v: Vec, c: nat, q: nat, count: nat,
        metadata: nat)
    requires g.Inv() && Agrees(m, head, heads, g, NONE) && Between(m, g, v, c, q, count, metadata)
    ensures v.header + 8 <= |m| && Get32(m, v.header + 4) == v.block && v.block + BLOCK_HEADER <= |m|
    ensures q + 4 * (|v.chunks| + 2) <= |m| < WORD_LIMIT && c < WORD_LIMIT && q < WORD_LIMIT && |v.chunks| < MAX_CHUNKS
  {
    hide Layout.Tiled, Layout.Listed, Pow2, Begin, VectorChunks.End, Different, Listing, Vec.Blocks, Vec.Owns;
    RoomInside(g, q, 4 * (|v.chunks| + 2));
    LiveInside(g, c);
  }

  lemma LiveInside(g: Layout, p: nat)
    requires g.Inv() && LiveAt(g, p)
    ensures p <= g.full
  {
    assert g.TileOk(p - HEADER);
  }

  lemma FreeableBlock(m: seq<byte>, head: nat, heads: seq<nat>, l: Layout, c: nat, size: nat)
    requires l.Inv() && Agrees(m, head, heads, l, NONE) && Room(l, c, size) && size >= HEADER
    ensures HEADER <= c <= l.full - 4
  {
    RoomInside(l, c, size);
  }

  lemma ReleasePasses(s: State, p: nat, t: State, m: seq<byte>, r: seq<byte>)
    requires s.Inv() && LiveAt(s.l, p) && t == Release(s, p) && Keeps(s.l, t.l, p - HEADER)
    requires Kept(m, r, s.l, p - HEADER)
    requires |m| == |r| == s.l.full == t.l.full
    ensures Passed(m, r, s.l, t.l, p - HEADER)
  {
    hide Release;
  }

  /** A block that was not allocated before is none of the vector's. */
  lemma NewIsApart(l0: Layout, l: Layout, v: Vec, c: nat, size: nat)
    requires Stored(l0, v) && !LiveAt(l0, c) && Room(l, c, size)
    ensures LiveAt(l, c) && !v.Owns(c - HEADER) && c - HEADER != v.home
  {
    AllLive(l0, v);
  }

  lemma StoredAt(l: Layout, v: Vec)
    requires Stored(l, v)
    ensures AtHome(l, v)
  {
  }

  lemma StillThere(m: seq<byte>, r: seq<byte>, l: Layout, g: Layout, c: nat, size: nat)
    requires l.Inv() && Passed(m, r, l, g, -1) && Room(l, c, size)
    ensures Room(g, c, size) && LiveAt(g, c)
  {
    PassedRoom(m, r, l, g, -1, c, size);
  }

  lemma ChunkSucceeds(m0: seq<byte>, m: seq<byte>, l0: Layout, l: Layout, v: Vec, c: nat, q: nat)
    requires Stored(l0, v) && Stored(l, v) && !LiveAt(l0, c) && Spares(m0, m, l0, l, v) && (q == v.dir || !LiveAt(l, q))
    requires q >= HEADER
    ensures Succeeds(l0, v, WithChunk(v, c, q))
  {
    var w := WithChunk(v, c, q);
    BlocksOf(v);
    BlocksOf(w);
    AllLive(l, v);
    forall o: nat | w.Owns(o) ensures v.Owns(o) || !Live(l0, o) {
      assert SparesBlock(m0, m, l0, l, v, o);
    }
  }

  lemma NextBytes(first: nat, num: nat, stride: nat)
    requires stride % 8 == 0 && 8 <= stride && 0 < first
    ensures first * Pow2(num) * stride == Begin(first, num + 1) * stride >= 8 && first * Pow2(num) * stride % 8 == 0
  {
    Multiples(first * Pow2(num), stride);
  }

  lemma Multiples(c: nat, stride: nat)
    requires stride % 8 == 0 && 8 <= stride && 0 < c
    ensures c * stride >= 8 && c * stride % 8 == 0
  {
    var d := c * (stride / 8);
    assert c * stride == 8 * d;
  }

  lemma FirstElements(m: seq<byte>, v: Vec, n: nat)
    requires n <= v.Capacity()
    ensures Elements(m, v, n) == Elements(m, v, v.Capacity())[..n]
  {
  }

  /** More storage leaves the elements' bytes where they are. */
  lemma SameElements(m: seq<byte>, v: Vec, w: Vec, n: nat)
    requires Extends(v, w) && n <= v.Capacity()
    ensures n <= w.Capacity() && Elements(m, w, n) == Elements(m, v, n)
  {
    forall i | 0 <= i < n ensures i < w.Capacity() && Element(m, w, i) == Element(m, v, i) { ExtendedAt(v, w, i); }
    if n > 0 { ExtendedAt(v, w, n - 1); }
  }

  lemma HeaderBlock(m: seq<byte>, l: Layout, v: Vec, count: nat, metadata: nat)
    requires Holds(m, l, v, count, metadata)
    ensures v.header + 8 <= |m| && Get32(m, v.header + 4) == v.block
  {
  }

  lemma NoElements(m: seq<byte>, v: Vec, r: seq<byte>, w: Vec)
    ensures Elements(m, v, 0) == Elements(r, w, 0)
  {
  }

  /** The vector w was reached from v by growing, with every other block as it was. */
  ghost predicate GrownFrom(m: seq<byte>, l: Layout, v: Vec, r: seq<byte>, g: Layout, w: Vec) {
    l.Inv() && |m| == l.full && Extends(v, w) && Spares(m, r, l, g, v) && Succeeds(l, v, w)
  }

  lemma GrownNot(m: seq<byte>, l: Layout, v: Vec)
    requires l.Inv() && |m| == l.full
    ensures GrownFrom(m, l, v, m, l, v)
  {
    SparesSame(m, l, v);
  }

  lemma GrownOn(m0: seq<byte>, l0: Layout, v0: Vec, m1: seq<byte>, l1: Layout, v1: Vec, r: seq<byte>, g: Layout, w: Vec)
    requires GrownFrom(m0, l0, v0, m1, l1, v1) && Spares(m1, r, l1, g, v1) && Extends(v1, w) && Succeeds(l1, v1, w)
    ensures GrownFrom(m0, l0, v0, r, g, w)
  {
    SparesBoth(m0, m1, r, l0, l1, g, v0, v1);
    forall o: nat | w.Owns(o) ensures v0.Owns(o) || !Live(l0, o) {
      assert SparesBlock(m0, m1, l0, l1, v0, o);
      assert v1.Owns(o) || !Live(l1, o);
    }
  }

  lemma HoldsChunks(m: seq<byte>, l: Layout, v: Vec, count: nat, metadata: nat)
    requires Holds(m, l, v, count, metadata)
    ensures |v.chunks| <= MAX_CHUNKS
  {
  }

  lemma PlaceOf(m: seq<byte>, head: nat, heads: seq<nat>, l: Layout, v: Vec, index: nat)
    requires l.Inv() && Agrees(m, head, heads, l, NONE) && Stored(l, v) && index < v.Capacity() && v.block != 0
    ensures v.first > 0
    ensures var k := ChunkOf(v.first, index);
        k <= |v.chunks| && InChunk(v.first, k, index)
        && v.At(index) == v.RunAt(k, index)
    ensures index + 1 < WORD_LIMIT
  {
    hide Pow2, ChunkOf, Layout.Tiled, Layout.Listed, Agrees;
    ChunkBelow(v.first, index, |v.chunks|);
    CapacityIsWord(m, head, heads, l, v, |v.chunks|);
  }

  /** The words of the header and of the block, if there is one. */
  lemma HoldsWords(m: seq<byte>, l: Layout, v: Vec, count: nat, metadata: nat)
    requires Holds(m, l, v, count, metadata)
    ensures v.header + 8 <= |m| && Get32(m, v.header + 4) == v.block
    ensures v.block != 0 ==> v.block + BLOCK_HEADER <= |m| && Get32(m, v.block + 4) == v.first && FirstRoom(v)
  {
    if v.block != 0 { EndMonotone(v.first, 0, |v.chunks|); Unscaled(v.first); }
  }

  ghost predicate FirstRoom(v: Vec) {
    v.first <= v.Capacity()
  }

  lemma AtInside(l: Layout, v: Vec, i: nat)
    requires v.block != 0 && i < v.Capacity() && l.Inv() && Stored(l, v)
    ensures v.At(i) != 0
  {
    hide Pow2, ChunkOf, Layout.Tiled, Layout.Listed;
    ChunkBelow(v.first, i, |v.chunks|);
    RunInside(l, v, ChunkOf(v.first, i), i, 1);
  }

  /** Nothing but this vector's own blocks has changed, whatever was allocated. */
  lemma GrownOver(m0: seq<byte>, l0: Layout, v0: Vec, m1: seq<byte>, l1: Layout, v: Vec, r: seq<byte>, g: Layout)
    requires GrownFrom(m0, l0, v0, m1, l1, v) && Spares(m1, r, l1, g, v)
    ensures GrownFrom(m0, l0, v0, r, g, v)
  {
    GrownOn(m0, l0, v0, m1, l1, v, r, g, v);
  }

  lemma AttachingNone(x: Value, e: seq<byte>, cfg: Config)
    requires x.s.Inv() && |e| >= 8
    ensures Attaching(x, e, [], cfg) == Done(x)
  {
  }

  predicate Requests(sizes: seq<word>) {
    forall i {:trigger sizes[i]} :: 0 <= i < |sizes| ==> 0 < sizes[i] <= MAX_REQUEST
  }

  lemma GrownWithin(m0: seq<byte>, l0: Layout, v0: Vec, m1: seq<byte>, l1: Layout, v1: Vec, r: seq<byte>)
    requires GrownFrom(m0, l0, v0, m1, l1, v1) && Spares(m1, r, l1, l1, v1)
    ensures GrownFrom(m0, l0, v0, r, l1, v1)
  {
    GrownOn(m0, l0, v0, m1, l1, v1, r, l1, v1);
  }

  ghost predicate AllLong(values: seq<seq<byte>>, stride: nat) {
    forall i {:trigger values[i]} :: 0 <= i < |values| ==> |values[i]| == stride
  }

  /** e with values from `from` on, as far as `to`. */
  function Filled<T>(e: seq<T>, values: seq<T>, from: nat, to: nat): seq<T>
    requires from <= to <= |e| && to - from <= |values|
  {
    e[..from] + values[..to - from] + e[to..]
  }

  lemma FilledNone<T>(e: seq<T>, values: seq<T>, from: nat)
    requires from <= |e|
    ensures Filled(e, values, from, from) == e
  {
  }

  lemma FilledOne<T>(e: seq<T>, values: seq<T>, from: nat, i: nat)
    requires from <= i < |e| && i - from < |values|
    ensures |Filled(e, values, from, i)| == |e|
    ensures Filled(e, values, from, i)[i := values[i - from]] == Filled(e, values, from, i + 1)
  {
  }

  lemma FilledAll<T>(e: seq<T>, values: seq<T>, from: nat, end: nat)
    requires from <= end <= |e| && end - from == |values|
    ensures Filled(e, values, from, end)[..end] == e[..from] + values
  {
  }

  lemma ChunkZero(first: nat)
    ensures Begin(first, 0) == 0 && ChunkSize(first, 0) == first
  {
    ChunkSizes(first, 0);
  }

  lemma ChunkEnds(first: nat, k: nat)
    ensures Begin(first, k) + ChunkSize(first, k) == VectorChunks.End(first, k)
  {
  }

  lemma EndBelow(v: Vec, k: nat)
    requires v.block != 0 && k <= |v.chunks|
    ensures VectorChunks.End(v.first, k) <= v.Capacity()
  {
    EndMonotone(v.first, k, |v.chunks|);
  }

  lemma InsertedAt<T>(e: seq<T>, index: nat, x: T)
    requires index <= |e|
    ensures (e + [x])[..index] == e[..index] && (e + [x])[index..|e|] == e[index..]
  {
  }

  lemma FreeableIn(s0: State, t: State, p: nat, blocks: seq<nat>, j: nat)
    requires s0.Inv() && t.Inv() && j < |blocks| && p == blocks[j] && Freeable(s0.l, blocks)
    requires Freed(s0, t, blocks[..j])
    requires Room(s0.l, p, HEADER)
    ensures LiveAt(t.l, p) && HEADER <= p <= t.l.full - 4
  {
    FreedMore(s0, t, blocks, j);
    assert Live(t.l, p - HEADER) == (Live(s0.l, p - HEADER) && p !in blocks[..j]);
    RoomInside(s0.l, p, HEADER);
  }

  lemma OwnFreeable(l: Layout, v: Vec)
    requires Stored(l, v)
    ensures Freeable(l, v.Blocks()) && Freeable(l, v.chunks)
    ensures forall b :: b in v.Blocks() ==> Room(l, b, HEADER)
  {
    AllLive(l, v);
    AllRoom(l, v);
    assert forall i :: 0 <= i < |v.chunks| ==> v.Blocks()[i] == v.chunks[i];
    assert forall b :: b in v.chunks ==> b in v.Blocks();
  }

  lemma AllRoom(l: Layout, v: Vec)
    requires Stored(l, v)
    ensures forall b :: b in v.Blocks() ==> Room(l, b, HEADER)
  {
    BlocksOf(v);
    forall b | b in v.chunks ensures Room(l, b, HEADER) {
      var k :| 0 <= k < |v.chunks| && v.chunks[k] == b;
      assert ChunkIn(l, v, k + 1);
      EnoughRoom(v.first, k, v.stride);
    }
    if v.block != 0 { BlockEnough(v.first, v.stride); }
  }

  lemma EnoughRoom(first: nat, k: nat, stride: nat)
    requires first > 0 && 8 <= stride
    ensures Begin(first, k + 1) * stride >= HEADER
  {
    assert first * Pow2(k) >= 1;
  }

  lemma BlockEnough(first: nat, stride: nat)
    ensures BLOCK_HEADER + first * stride >= HEADER
  {
  }

  lemma NoneFreed(s: State, v: Vec, m: seq<byte>)
    requires s.Inv() && Freeable(s.l, v.Blocks())
    ensures Freeable(s.l, v.Blocks()[..0]) && s == ReleaseAll(s, v.Blocks()[..0]) && KeptBut(m, m, s.l, v.Blocks()[..0])
  {
    FreeableFirst(s.l, v.Blocks(), 0);
  }

  /** The vector's own blocks, in the order they are freed. */
  lemma BlocksOrder(v: Vec)
    ensures v.Blocks()[..|v.chunks|] == v.chunks && |v.chunks| <= |v.Blocks()|
    ensures |v.Blocks()| == |v.chunks| + (if v.dir != 0 then 1 else 0) + (if v.block != 0 then 1 else 0)
    ensures v.dir != 0 ==> v.Blocks()[|v.chunks|] == v.dir
    ensures v.block != 0 ==> v.Blocks()[|v.Blocks()| - 1] == v.block
    ensures v.Blocks()[..|v.Blocks()|] == v.Blocks()
  {
  }

  /** The directory is still as it was while the chunks are freed. */
  lemma DirectoryStays(s: State, v: Vec, k: nat, m0: seq<byte>, m: seq<byte>, count: nat, metadata: nat)
    requires s.Inv() && Holds(m0, s.l, v, count, metadata) && 1 <= k <= |v.chunks|
    requires KeptBut(m0, m, s.l, v.Blocks()[..k - 1])
    ensures |m| == |m0| && v.dir + 4 * k + 4 <= |m| && Get32(m, v.dir + 4 * k) == v.chunks[k - 1]
    ensures |v.Blocks()| >= k && v.Blocks()[k - 1] == v.chunks[k - 1] && Room(s.l, v.chunks[k - 1], HEADER)
  {
    hide Layout.Tiled, Layout.Listed, Pow2, Begin, VectorChunks.End;
    BlocksOrder(v);
    OwnFreeable(s.l, v);
    RoomInside(s.l, v.dir, 4 * (|v.chunks| + 1));
    assert DirWord(m0, v, k);
    var n := |v.chunks|;
    assert forall i :: 0 <= i < n ==> v.Blocks()[i] != v.Blocks()[n];
    assert forall i :: 0 <= i < k - 1 ==> v.Blocks()[..k - 1][i] == v.Blocks()[i];
    assert Same(m0, m, v.dir, s.l.End(v.dir - HEADER));
  }

  lemma NothingToRelease(s: State, v: Vec)
    requires s.Inv() && v.block == 0 && v.dir == 0 && v.chunks == []
    ensures v.Blocks() == [] && Freeable(s.l, v.Blocks()) && ReleaseAll(s, v.Blocks()) == s
  {
  }

  lemma ReleasedHome(s: State, t: State, v: Vec, m0: seq<byte>, m: seq<byte>, head: nat, heads: seq<nat>)
    requires s.Inv() && t.Inv() && AtHome(s.l, v) && !v.Owns(v.home) && Freed(s, t, v.Blocks())
    requires Agrees(m, head, heads, t.l, NONE)
    ensures AtHome(t.l, v) && v.header + 8 <= |m|
  {
    assert Live(t.l, v.home) == (Live(s.l, v.home) && v.home + HEADER !in v.Blocks());
    assert t.l.TileOk(v.home);
  }

  /** With every block freed and the header written, the vector is empty. */
  lemma ReleasedHolds(s: State, t: State, v: Vec, m0: seq<byte>, m: seq<byte>, r: seq<byte>, head: nat, heads: seq<nat>,
        metadata: nat)
    requires s.Inv() && t.Inv() && AtHome(s.l, v) && 8 <= v.stride < WORD_LIMIT && v.stride % 8 == 0
    requires Freed(s, t, v.Blocks()) && Agrees(m, head, heads, t.l, NONE)
    requires |m0| == s.l.full && KeptBut(m0, m, s.l, v.Blocks()) && AtHome(t.l, v)
    requires OnlyIn(m, r, v.header, v.header + 8) && v.header + 8 <= |r| && Get32(r, v.header) == 0
    requires Get32(r, v.header + 4) == 0
    ensures Agrees(r, head, heads, t.l, NONE) && Spares(m0, r, s.l, t.l, v)
    ensures Holds(r, t.l, v.(block := 0, dir := 0, chunks := []), 0, metadata)
  {
    hide Layout.Tiled, Layout.Listed, Agrees, Freed, KeptBut, Vec.Blocks, Holds, Spares;
    WriteAgrees(m, r, head, heads, t.l, NONE, v.home, v.header, v.header + 8);
    ReleasedSpares(s, t, v, m0, m, r);
    SizeIs(r, t.l, head, heads);
    EmptyHolds(r, t.l, v.(block := 0, dir := 0, chunks := []), metadata);
  }

  lemma EmptyHolds(m: seq<byte>, l: Layout, v: Vec, metadata: nat)
    requires |m| == l.full && AtHome(l, v) && 8 <= v.stride < WORD_LIMIT && v.stride % 8 == 0
    requires v.block == 0 && v.dir == 0 && v.chunks == []
    requires v.header + 8 <= |m| && Get32(m, v.header) == 0 && Get32(m, v.header + 4) == 0
    ensures Holds(m, l, v, 0, metadata)
  {
    BlocksOf(v);
    forall k: nat ensures ChunkIn(l, v, k) && DirWord(m, v, k) { }
  }

  lemma ReleasedSpares(s: State, t: State, v: Vec, m0: seq<byte>, m: seq<byte>, r: seq<byte>)
    requires s.Inv() && t.Inv() && AtHome(s.l, v) && Freed(s, t, v.Blocks()) && |m0| == s.l.full
    requires KeptBut(m0, m, s.l, v.Blocks()) && OnlyIn(m, r, v.header, v.header + 8)
    ensures Spares(m0, r, s.l, t.l, v)
  {
    forall o: nat ensures SparesBlock(m0, r, s.l, t.l, v, o) {
      if Live(s.l, o) && !v.Owns(o) {
        assert Live(t.l, o) == (Live(s.l, o) && o + HEADER !in v.Blocks());
        assert Same(m0, m, o + HEADER, s.l.End(o));
        LiveFits(s, o);
        if o != v.home { TilesApart(s.l, o, v.home); }
      }
    }
  }
}
