/**
What a reader of the bytes that were sent finds: where the writer put them, the elements, strings and numbers
that were written, as long as every block in use is among those bytes.
*/
module SentMessages {
  import opened Bytes
  import opened Layouts
  import opened HeapSpec
  import opened HeapMemory
  import opened AllocatedBlocks
  import opened VectorChunks
  import opened VectorMemory
  import opened SentBytes
  import opened FieldTables
  import opened ReceivedBuffers
  import Strings = StringFields
  import Numbers = PrimitiveVectors

  /** The state whose heap is sent, with memory m. */
  ghost predicate Sendable(m: seq<byte>, s: State) {
    s.Inv() && Covered(s) && s.hwm <= |m| == s.l.full < WORD_LIMIT
  }

  ghost function Sent(m: seq<byte>, s: State): (t: seq<byte>)
    requires Sendable(m, s)
    ensures |t| == s.hwm && t <= m
  {
    m[..s.hwm]
  }

  /** The size word of an allocated block is read back as the bytes it was given. */
  lemma SizeWordIsReadBack(l: Layout, o: nat)
    requires l.Inv() && Live(l, o) && l.full < FLAG
    ensures 0 <= SizeWord(l.tiles[o]) < WORD_LIMIT && RecordedIn(SizeWord(l.tiles[o])) == Recorded(l.tiles[o])
  {
    TileAt(l, o);
  }

  /** A reader of the bytes that were sent finds how many bytes each block was given. */
  lemma CapacityIsReadBack(m: seq<byte>, head: nat, heads: seq<nat>, s: State, p: nat)
    requires Sendable(m, s) && Agrees(m, head, heads, s.l, NONE) && LiveAt(s.l, p)
    ensures p - HEADER + 4 <= |Sent(m, s)|
    ensures RecordedIn(Get32(Sent(m, s), p - HEADER)) == Recorded(s.l.tiles[p - HEADER])
  {
    var o := p - HEADER;
    TileAt(s.l, o);
    assert HeaderOk(m, s.l, o) && EndsBelow(s.l, o, s.hwm);
    SentWord(m, Sent(m, s), o);
    SizeWordIsReadBack(s.l, o);
  }

  lemma SentWord(m: seq<byte>, t: seq<byte>, o: nat)
    requires t <= m && o + 4 <= |t|
    ensures Get32(t, o) == Get32(m, o)
  {
  }

  lemma SentSlice(m: seq<byte>, t: seq<byte>, o: nat, n: nat)
    requires t <= m && o + n <= |t|
    ensures Slice(t, o, n) == Slice(m, o, n)
  {
  }

  lemma RoomSent(m: seq<byte>, s: State, p: nat, n: nat)
    requires Sendable(m, s) && Room(s.l, p, n)
    ensures p + n <= s.hwm
  {
    hide Layout.Tiled, Layout.Listed, Under;
    RoomInside(s.l, p, n);
    UnderAt(s.l, p - HEADER, s.hwm);
  }

  // ---- Vectors of messages ----

  /** What a reader finds at v's block. */
  ghost function Found(t: seq<byte>, v: Vec): VectorLayout
    requires v.block < WORD_LIMIT && v.block + 16 <= |t|
  {
    ClaimedLayout(t, v.block)
  }

  lemma BlockSent(m: seq<byte>, s: State, v: Vec, count: nat, metadata: nat)
    requires Sendable(m, s) && Holds(m, s.l, v, count, metadata) && v.block != 0
    ensures var t := Sent(m, s);
      && v.header + 8 <= |t| && Get32(t, v.header) == count && Get32(t, v.header + 4) == v.block
      && v.block + 16 + v.first * v.stride <= |t| && (v.dir != 0 ==> v.dir + 4 * (|v.chunks| + 1) <= |t|)
  {
    hide Layout.Tiled, Layout.Listed, Under, DirWord, ChunkIn, Different, Vec.Owns, Vec.Blocks, Get32;
    UnderAt(s.l, v.home, s.hwm);
    SentWord(m, Sent(m, s), v.header);
    SentWord(m, Sent(m, s), v.header + 4);
    RoomSent(m, s, v.block, BLOCK_HEADER + v.first * v.stride);
    if v.dir != 0 { RoomSent(m, s, v.dir, 4 * (|v.chunks| + 1)); }
  }

  lemma HeldWords(m: seq<byte>, l: Layout, v: Vec, count: nat, metadata: nat)
    requires Holds(m, l, v, count, metadata) && v.block != 0
    ensures v.block + 16 <= |m| && (v.dir == 0 <==> v.chunks == [])
    ensures Get32(m, v.block) == v.stride && Get32(m, v.block + 4) == v.first && Get32(m, v.block + 12) == v.dir
    ensures v.dir != 0 ==> v.dir + 4 <= |m| && Get32(m, v.dir) == |v.chunks|
  {
    hide Get32;
  }

  lemma StartSent(block: nat, first: nat, stride: nat, dir: nat, n: nat, hwm: nat)
    requires block + 16 + first * stride <= hwm && (dir != 0 ==> dir + 4 * (n + 1) <= hwm)
    ensures block + 16 <= hwm && (dir != 0 ==> dir + 4 <= hwm)
  {
  }

  lemma FieldsSent(m: seq<byte>, s: State, v: Vec, count: nat, metadata: nat)
    requires Sendable(m, s) && Holds(m, s.l, v, count, metadata) && v.block != 0
    ensures var t := Sent(m, s);
      && v.block < WORD_LIMIT && v.block + 16 <= |t|
      && var layout := Found(t, v);
      && layout.block == v.block && layout.stride == v.stride && layout.first == v.first && layout.dir == v.dir
      && layout.num == |v.chunks|
  {
    hide Layout.Tiled, Layout.Listed, Sendable, Holds, Get32;
    HeldWords(m, s.l, v, count, metadata);
    BlockSent(m, s, v, count, metadata);
    StartSent(v.block, v.first, v.stride, v.dir, |v.chunks|, s.hwm);
    var t := Sent(m, s);
    SentWord(m, t, v.block);
    SentWord(m, t, v.block + 4);
    SentWord(m, t, v.block + 12);
    if v.dir != 0 { SentWord(m, t, v.dir); }
  }

  /** A reader finds the layout of the vector that was written. */
  lemma LayoutIsReadBack(m: seq<byte>, s: State, v: Vec, count: nat, metadata: nat)
    requires Sendable(m, s) && Holds(m, s.l, v, count, metadata) && v.block != 0
    ensures var t := Sent(m, s);
      && v.block < WORD_LIMIT && v.block + 16 <= |t|
      && var layout := Found(t, v);
      && layout.Inside(t) && layout.block == v.block && layout.stride == v.stride && layout.first == v.first
      && layout.dir == v.dir && layout.num == |v.chunks| && layout.Capacity() == v.Capacity()
  {
    hide Layout.Tiled, Layout.Listed, Sendable, DirWord, ChunkIn, Different, Vec.Owns, Vec.Blocks, Get32, Begin, Pow2,
      Room, Found, Written;
    FieldsSent(m, s, v, count, metadata);
    BlockSent(m, s, v, count, metadata);
  }

  /** And each element is where it was put, with the bytes that were put there. */
  lemma ElementIsReadBack(m: seq<byte>, s: State, v: Vec, count: nat, metadata: nat, i: word)
    requires Sendable(m, s) && Holds(m, s.l, v, count, metadata) && i < v.Capacity()
    ensures var t := Sent(m, s);
      && v.block < WORD_LIMIT && v.block + 16 <= |t|
      && var layout := Found(t, v);
      && layout.Inside(t) && i < layout.Capacity() && Place(t, layout, i) == v.At(i)
      && v.At(i) + v.stride <= |t| && Slice(t, v.At(i), v.stride) == Element(m, v, i)
  {
    hide Layout.Tiled, Layout.Listed, Sendable, DirWord, ChunkIn, Different, Vec.Owns, Vec.Blocks, Get32, Begin, Pow2,
      VectorChunks.End, ChunkOf, Stored, Written;
    LayoutIsReadBack(m, s, v, count, metadata);
    ChunkBelow(v.first, i, |v.chunks|);
    var t, k := Sent(m, s), ChunkOf(v.first, i);
    ElementSent(m, s, v, count, metadata, i);
    ChunkStartSent(m, s, v, count, metadata, k);
    SentSlice(m, t, v.At(i), v.stride);
  }

  lemma FirstHolds(l: Layout, v: Vec)
    requires Stored(l, v) && v.Capacity() > 0
    ensures v.block != 0 && v.first > 0
  {
  }

  lemma ElementSent(m: seq<byte>, s: State, v: Vec, count: nat, metadata: nat, i: nat)
    requires Sendable(m, s) && Holds(m, s.l, v, count, metadata) && i < v.Capacity()
    ensures v.At(i) + v.stride <= s.hwm
  {
    hide Layout.Tiled, Layout.Listed, DirWord, ChunkIn, Different, Vec.Owns, Vec.Blocks, Begin, Pow2, Under,
      VectorChunks.End, ChunkOf, Stored, Written;
    FirstHolds(s.l, v);
    var k := ChunkOf(v.first, i);
    ChunkBelow(v.first, i, |v.chunks|);
    RunInside(s.l, v, k, i, 1);
    UnderAt(s.l, ChunkTile(v, k), s.hwm);
  }

  lemma ChunkStartSent(m: seq<byte>, s: State, v: Vec, count: nat, metadata: nat, k: nat)
    requires Sendable(m, s) && Holds(m, s.l, v, count, metadata) && v.block != 0 && k <= |v.chunks|
    requires v.block < WORD_LIMIT && v.block + 16 <= |Sent(m, s)|
    requires var layout := Found(Sent(m, s), v); layout.block == v.block && layout.dir == v.dir
    ensures k > 0 ==> v.dir + 4 * k + 4 <= |Sent(m, s)|
    ensures ChunkStart(Sent(m, s), Found(Sent(m, s), v), k) == v.Base(k) != 0
  {
    hide Layout.Tiled, Layout.Listed, Sendable, Different, Vec.Owns, Vec.Blocks, Get32, Begin, Pow2;
    BlockSent(m, s, v, count, metadata);
    if k > 0 {
      assert DirWord(m, v, k) && ChunkIn(s.l, v, k);
      SentWord(m, Sent(m, s), v.dir + 4 * k);
    }
  }

  // ---- Fields ----

  /** By the table it was generated, a reader finds every declared field of the message at p, and no other. */
  lemma FieldIsReadBack(m: seq<byte>, s: State, p: word, at: nat, fields: seq<Field>, table: Table, number: int)
    requires Sendable(m, s) && p != 0 && Room(s.l, p, 4) && p + 4 <= |m| && Get32(m, p) == at != 0
    requires Declared(fields) && Packable(table) && Indexes(fields, table)
    requires HoldsBytes(m, at, BytesOf(TableWords(table))) && Room(s.l, at, |BytesOf(TableWords(table))|)
    ensures NamesTable(Sent(m, s), p)
    ensures var t := Sent(m, s); HybridInside(t, at) && TableLookup(TableIn(t, at), number) == Lookup(fields, number)
  {
    hide Layout.Tiled, Layout.Listed, Under, BytesOf, TableWords, Lookup, TableIn, HybridInside, Get32;
    var t, b := Sent(m, s), BytesOf(TableWords(table));
    RoomSent(m, s, p, 4);
    RoomSent(m, s, at, |b|);
    SentWord(m, t, p);
    assert t[at..at + |b|] == m[at..at + |b|];
    HeldTableFinds(t, at, fields, table, number);
  }

  // ---- Strings and numbers ----

  /** A reader finds a string that was written, all of it. */
  lemma StringIsReadBack(m: seq<byte>, s: State, home: nat, header: word, p: nat, data: nat, len: nat)
    requires Sendable(m, s) && Strings.HoldsString(m, s.l, home, header, p) && p != 0
    requires ReadsString(Sent(m, s), true, header, data, len)
    ensures data == p + 4 && Slice(Sent(m, s), data, len) == Strings.Text(m, p)
  {
    hide Layout.Tiled, Layout.Listed, Under;
    var t := Sent(m, s);
    UnderAt(s.l, home, s.hwm);
    RoomSent(m, s, p, 4 + Get32(m, p));
    SentWord(m, t, header);
    SentWord(m, t, p);
    SentSlice(m, t, p + 4, Get32(m, p));
  }

  /** A reader finds all the numbers that were written. */
  lemma NumbersAreReadBack(m: seq<byte>, s: State, home: nat, header: nat, size: nat, count: nat, p: nat, n: nat)
    requires Sendable(m, s) && Numbers.HoldsVector(m, s.l, home, header, size, count, p) && 0 < size && p != 0
    requires FitsMost(Sent(m, s), p, count, size, n)
    ensures n == count && Numbers.Items(Sent(m, s), p, size, n) == Numbers.Items(m, p, size, count)
  {
    hide Layout.Tiled, Layout.Listed, Under, Numbers.Items;
    RoomSent(m, s, p, Numbers.Span(count, size));
    AllFit(n, count, size, |Sent(m, s)| - p);
    ItemsSent(m, Sent(m, s), p, size, count);
  }

  lemma AllFit(n: nat, count: nat, size: nat, room: int)
    requires n <= count && Numbers.Span(count, size) <= room && (n < count ==> (n + 1) * size > room)
    ensures n == count
  {
    if n < count { Numbers.Scaled(n, count, size); }
  }

  lemma ItemsSent(m: seq<byte>, t: seq<byte>, p: nat, size: nat, count: nat)
    requires t <= m && p + Numbers.Span(count, size) <= |t|
    ensures Numbers.Items(t, p, size, count) == Numbers.Items(m, p, size, count)
  {
    var a, b := Numbers.Items(t, p, size, count), Numbers.Items(m, p, size, count);
    forall i | 0 <= i < count ensures a[i] == b[i] {
      Numbers.Scaled(i, count, size);
      SentSlice(m, t, p + i * size, size);
    }
  }
}
