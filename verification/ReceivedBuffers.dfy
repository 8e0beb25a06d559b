/**
Reading a received buffer, whose bytes may hold anything: every read is inside the trusted bytes, which are
`m`.  That its first word is a buffer's is `magic`.
*/
module ReceivedBuffers {
  import opened Bytes
  import opened VectorChunks
  import opened FieldTables

  /** Whether the n bytes at an offset are inside the trusted bytes. */
  predicate IsValidAddress(m: seq<byte>, offset: nat, n: nat) {
    n != 0 && offset < |m| && n <= |m| - offset
  }

  /** The offset, or 0 if n bytes there cannot be read. */
  function ToAddress(m: seq<byte>, magic: bool, offset: word, n: nat): (p: word)
    ensures p != 0 ==> p == offset && p + n <= |m|
    ensures p == 0 <==> offset == 0 || !magic || n == 0 || offset + n > |m|
  {
    if offset == 0 || !magic || !IsValidAddress(m, offset, n) then 0 else offset
  }

  /** The message at `start` names a table made by the generator, all inside the trusted bytes. */
  ghost predicate NamesTable(m: seq<byte>, start: word) {
    && start != 0 && start + 4 <= |m| && Get32(m, start) != 0 && HybridInside(m, Get32(m, start))
    && Get32(m, Get32(m, start)) == MAGIC && Ascending(TableIn(m, Get32(m, start)).sparse)
  }

  /** The message at `start` names a list of all its fields, all inside the trusted bytes. */
  ghost predicate NamesList(m: seq<byte>, start: word) {
    && start != 0 && start + 4 <= |m| && Get32(m, start) != 0 && LegacyInside(m, Get32(m, start))
    && Get32(m, Get32(m, start)) != MAGIC
    && Ascending(FieldsIn(m, Get32(m, start) + 4, Get32(m, Get32(m, start))))
  }

  /** The field table that the message at `start` names, if all of it can be read, is searched for the number. */
  method FindField(m: seq<byte>, magic: bool, start: word, number: word) returns (loc: Location)
    requires |m| < WORD_LIMIT
    ensures loc != NOWHERE ==> magic && start != 0 && start + 4 <= |m| && Get32(m, start) != 0
    ensures loc != NOWHERE ==> (HybridInside(m, Get32(m, start)) || LegacyInside(m, Get32(m, start)))
    ensures magic && NamesTable(m, start) ==> loc == TableLookup(TableIn(m, Get32(m, start)), number)
    ensures magic && NamesList(m, start) ==>
      loc == Lookup(FieldsIn(m, Get32(m, start) + 4, Get32(m, Get32(m, start))), number)
  {
    hide TableIn, Lookup;
    if ToAddress(m, magic, start, 4) == 0 {
      return NOWHERE;
    }
    var table := Get32(m, start);
    if ToAddress(m, magic, table, 1) == 0 {
      return NOWHERE;
    }
    RangeFits(table, 1, 4, |m|);
    if !MetadataRangeFits(table, 1, 4, |m|) {
      return NOWHERE;
    }
    if Get32(m, table) == MAGIC {
      var fits := HybridTableFits(m, table);
      if !fits {
        return NOWHERE;
      }
      loc := FindHybridField(m, table, number);
    } else {
      var fits := LegacyTableFits(m, table);
      if !fits {
        return NOWHERE;
      }
      loc := FindLegacyField(m, table, number);
    }
  }

  // ---- Vectors of messages ----

  datatype VectorLayout = VectorLayout(block: word, stride: word, first: word, dir: word, num: word) {
    function Capacity(): nat {
      first * Pow2(num)
    }

    /** The first chunk and the directory are inside the trusted bytes. */
    ghost predicate Inside(m: seq<byte>) {
      && (block == 0 ==> first == 0)
      && (block != 0 ==> 0 < first && 8 <= stride && stride % 8 == 0 && block + 16 + first * stride <= |m|)
      && num <= 31 && (dir == 0 ==> num == 0) && (dir != 0 ==> dir + 4 * (num + 1) <= |m|)
    }
  }

  const NO_LAYOUT: VectorLayout := VectorLayout(0, 0, 0, 0, 0)

  /** What the words at `block` say the layout is, whether or not it is one. */
  ghost function ClaimedLayout(m: seq<byte>, block: word): VectorLayout
    requires block + 16 <= |m|
  {
    var dir := Get32(m, block + 12);
    VectorLayout(block, Get32(m, block), Get32(m, block + 4), dir,
                 if dir == 0 || dir + 4 > |m| then 0 else Get32(m, dir))
  }

  /** The layout of the vector data at `block`: the claimed one if it is inside the trusted bytes, or no elements. */
  method LoadReceivedLayout(m: seq<byte>, block: word) returns (layout: VectorLayout)
    requires |m| < WORD_LIMIT
    ensures layout.Inside(m)
    ensures layout ==
      if block != 0 && block + 16 <= |m| && ClaimedLayout(m, block).Inside(m) then ClaimedLayout(m, block)
      else NO_LAYOUT
  {
    if block == 0 || block + 16 > |m| {
      return NO_LAYOUT;
    }
    var stride, first: nat, dir: nat := Get32(m, block), Get32(m, block + 4), Get32(m, block + 12);
    if stride < 8 || stride % 8 != 0 || first == 0 || block + 16 + first * stride > |m| {
      return NO_LAYOUT;
    }
    var num: nat := 0;
    if dir != 0 {
      if dir + 4 > |m| {
        return NO_LAYOUT;
      }
      num := Get32(m, dir);
      if num > 31 || dir + (num + 1) * 4 > |m| {
        return NO_LAYOUT;
      }
    }
    layout := VectorLayout(block, stride, first, dir, num);
  }

  /** Where chunk k starts: after the block's header, or where the directory says. */
  function ChunkStart(m: seq<byte>, layout: VectorLayout, k: nat): nat
    requires k > 0 ==> layout.dir + 4 * k + 4 <= |m|
  {
    if k == 0 then layout.block + 16 else Get32(m, layout.dir + 4 * k)
  }

  /** Where element `index` is in its chunk; 0 if it has none or is not all inside the trusted bytes. */
  ghost function Place(m: seq<byte>, layout: VectorLayout, index: word): (p: nat)
    requires layout.Inside(m) && index < layout.Capacity()
    ensures p != 0 ==> p + layout.stride <= |m|
  {
    hide Pow2, ChunkOf, Begin;
    NoneWithout(layout);
    ChunkBelow(layout.first, index, layout.num);
    var k := ChunkOf(layout.first, index);
    var chunk := ChunkStart(m, layout, k);
    var p := chunk + Scale(index - Begin(layout.first, k), layout.stride);
    if chunk == 0 || p + layout.stride > |m| then 0 else p
  }

  /** The offset of element `index`; 0 if the element is not all inside the trusted bytes. */
  method MessageVectorElement(m: seq<byte>, layout: VectorLayout, index: word) returns (p: nat)
    requires |m| < WORD_LIMIT && layout.Inside(m) && index < layout.Capacity()
    ensures p == Place(m, layout, index)
  {
    hide Pow2, ChunkOf, ChunkShift;
    NoneWithout(layout);
    if index < layout.first {
      WithinFirst(index, layout.first, layout.stride);
      FirstChunkOf(layout.first, index);
      return layout.block + 16 + index * layout.stride;
    }
    p := FurtherElement(m, layout, index);
  }

  /** The offset of element `index` past the first chunk. */
  method FurtherElement(m: seq<byte>, layout: VectorLayout, index: word) returns (p: nat)
    requires |m| < WORD_LIMIT && layout.Inside(m) && 0 < layout.first <= index < layout.Capacity()
    ensures p == Place(m, layout, index)
  {
    hide Pow2, ChunkOf, ChunkShift, Begin, End;
    Listed(layout, index);
    var shift: nat := ChunkShift(layout.first, index);
    var chunk := Get32(m, layout.dir + (shift + 1) * 4);
    if chunk == 0 {
      return 0;
    }
    var start := Begin(layout.first, shift + 1);
    var offset := chunk + Scale(index - start, layout.stride);
    p := if offset + layout.stride > |m| then 0 else offset;
  }

  function Scale(a: nat, b: nat): nat {
    a * b
  }

  lemma FirstChunkOf(first: nat, index: nat)
    requires index < first
    ensures ChunkOf(first, index) == 0 && Begin(first, 0) == 0
  {
  }

  lemma NoneWithout(layout: VectorLayout)
    ensures layout.first == 0 ==> layout.Capacity() == 0
  {
  }

  lemma WithinFirst(index: nat, first: nat, stride: nat)
    requires index < first
    ensures index * stride + stride <= first * stride
  {
    assert (index + 1) * stride <= first * stride;
  }

  /** An element past the first chunk is in one the directory lists, at or after that chunk's start. */
  lemma Listed(layout: VectorLayout, index: word)
    requires 0 < layout.first <= index < layout.Capacity()
    ensures var shift := ChunkShift(layout.first, index);
      && 0 <= shift < layout.num && shift + 1 == ChunkOf(layout.first, index)
      && Begin(layout.first, shift + 1) <= index
  {
    hide Pow2, ChunkOf, ChunkShift;
    ShiftFindsChunk(layout.first, index);
    ChunkBelow(layout.first, index, layout.num);
  }

  // ---- Strings, vectors of numbers and presence bits ----

  /** The string whose header word is at `header`, cut to what can be read, is the `len` bytes at `data`. */
  ghost predicate ReadsString(m: seq<byte>, magic: bool, header: word, data: nat, len: nat) {
    && data + len <= |m| && (data == 0 ==> len == 0)
    && (data != 0 <==>
      magic && header != 0 && header + 4 <= |m| && Get32(m, header) != 0 && Get32(m, header) + 4 <= |m|)
    && (data != 0 ==>
      data == Get32(m, header) + 4
      && len == (if Get32(m, data - 4) <= |m| - data then Get32(m, data - 4) else |m| - data))
  }

  /** Where a string's bytes are and how many of them there are, cut to what can be read. */
  method BoundedString(m: seq<byte>, magic: bool, header: word) returns (data: nat, len: nat)
    requires |m| < WORD_LIMIT
    ensures ReadsString(m, magic, header, data, len)
  {
    if ToAddress(m, magic, header, 4) == 0 {
      return 0, 0;
    }
    var lengthWord := ToAddress(m, magic, Get32(m, header), 4);
    if lengthWord == 0 {
      return 0, 0;
    }
    data := lengthWord + 4;
    if data > |m| {
      return 0, 0;
    }
    len := Get32(m, lengthWord);
    if len > |m| - data {
      len := |m| - data;
    }
  }

  /** n is as many of the claimed elements as fit in the trusted bytes. */
  ghost predicate FitsMost(m: seq<byte>, data: nat, claimed: nat, size: nat, n: nat) {
    && n <= claimed && (n > 0 ==> 0 < data && data + n * size <= |m|)
    && (n < claimed ==> data == 0 || size == 0 || data + (n + 1) * size > |m|)
  }

  /** As many of the claimed elements as fit in the trusted bytes. */
  method ClampElementCount(m: seq<byte>, data: word, claimed: nat, size: nat) returns (n: nat)
    requires |m| < WORD_LIMIT
    ensures FitsMost(m, data, claimed, size, n)
  {
    if data == 0 || size == 0 {
      return 0;
    }
    RangeFits(data, 1, size, |m|);
    if data >= |m| {
      return 0;
    }
    var available := (|m| - data) / size;
    n := if claimed < available then claimed else available;
    RangeFits(data, n, size, |m|);
    RangeFits(data, n + 1, size, |m|);
  }

  /** The bytes a size word records. */
  function RecordedIn(w: word): nat {
    if w < 0x8000_0000 then w else w % 0x100
  }

  /** How many elements the block at `data` has room for, by the size word before it, if that can be read. */
  method AllocatedCapacity(m: seq<byte>, magic: bool, data: word, size: nat) returns (n: nat)
    ensures n == if magic && size != 0 && 8 <= data && data + 4 <= |m| then RecordedIn(Get32(m, data - 8)) / size else 0
  {
    if size == 0 || data < 8 || ToAddress(m, magic, data, 4) == 0 {
      return 0;
    }
    n := RecordedIn(Get32(m, data - 8)) / size;
  }

  /** A presence bit; its byte's offset is computed in 32 bits and may wrap, but is only read if it is inside. */
  method IsPresent(m: seq<byte>, magic: bool, bit: word, mask: word) returns (present: bool)
    ensures present <==>
      && magic && bit != WORD_LIMIT - 1 && 0 < (mask + bit / 8) % WORD_LIMIT < |m|
      && m[(mask + bit / 8) % WORD_LIMIT] / Pow2(bit % 8) % 2 == 1
  {
    if bit == WORD_LIMIT - 1 {
      return false;
    }
    var p := ToAddress(m, magic, (mask + bit / 8) % WORD_LIMIT, 1);
    if p == 0 {
      return false;
    }
    present := m[p] / Pow2(bit % 8) % 2 == 1;
  }
}
