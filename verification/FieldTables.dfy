/**
The table that leads from field numbers to fields: which field numbers the generator indexes directly, the
table it makes, and finding a field in it.
*/
module FieldTables {
  import opened Bytes

  /** A declared field: its number, where it is in the message, and its bit in the presence mask. */
  datatype Field = Field(number: word, offset: nat, id: nat)

  datatype Location = Location(offset: int, id: int)

  const NOWHERE: Location := Location(-1, -1)
  const OFFSETS: nat := 0x100_0000
  const IDS: nat := 0x100
  const MAX_NUMBER: nat := 0x1FFF_FFFF

  predicate Ascending(fields: seq<Field>) {
    forall i, j {:trigger fields[i], fields[j]} :: 0 <= i < j < |fields| ==> fields[i].number < fields[j].number
  }

  /** The fields of a message, sorted, as a field table can hold them. */
  ghost predicate Declared(fields: seq<Field>) {
    && Ascending(fields)
    && forall i {:trigger fields[i]} :: 0 <= i < |fields| ==>
      0 < fields[i].number <= MAX_NUMBER && 0 < fields[i].offset < OFFSETS && fields[i].id < IDS
  }

  /** The field of a number, looked for one by one. */
  function Lookup(fields: seq<Field>, number: int): (r: Location)
    ensures r == NOWHERE || exists i :: 0 <= i < |fields| && fields[i].number == number && r == At(fields[i])
    ensures (forall i :: 0 <= i < |fields| ==> fields[i].number != number) ==> r == NOWHERE
  {
    if fields == [] then NOWHERE
    else if fields[0].number == number then At(fields[0])
    else
      assert forall i :: 1 <= i < |fields| ==> fields[i] == fields[1..][i - 1];
      Lookup(fields[1..], number)
  }

  function At(f: Field): Location {
    Location(f.offset, f.id)
  }

  lemma {:induction false} LookupFinds(fields: seq<Field>, i: nat)
    requires Ascending(fields) && i < |fields|
    ensures Lookup(fields, fields[i].number) == At(fields[i])
  {
    if i > 0 { LookupFinds(fields[1..], i - 1); }
  }

  /** Between two fields that follow each other there is no field. */
  lemma LookupBetween(fields: seq<Field>, i: nat, number: int)
    requires Ascending(fields) && i <= |fields|
    requires (i > 0 ==> fields[i - 1].number < number) && (i < |fields| ==> number < fields[i].number)
    ensures Lookup(fields, number) == NOWHERE
  {
    forall j | 0 <= j < |fields| ensures fields[j].number != number {
      if j < i {
        assert fields[j].number <= fields[i - 1].number;
      } else {
        assert fields[i].number <= fields[j].number;
      }
    }
  }

  // ---- Which field numbers to index directly ----

  /** The bytes of a table that indexes the numbers of fields i to j directly. */
  function DenseSize(fields: seq<Field>, i: nat, j: nat): int
    requires i <= j < |fields|
  {
    16 + 4 * (fields[j].number - fields[i].number + 1) + 8 * (|fields| - (j - i + 1))
  }

  function SparseSize(fields: seq<Field>): int {
    16 + 8 * |fields|
  }

  function StartScore(fields: seq<Field>, i: nat): int
    requires i < |fields|
  {
    -8 * i + 4 * fields[i].number
  }

  /** How much smaller indexing the numbers of fields i to j directly makes a table. */
  function Saving(fields: seq<Field>, i: nat, j: nat): int
    requires i <= j < |fields|
  {
    SparseSize(fields) - DenseSize(fields, i, j)
  }

  lemma SavingIs(fields: seq<Field>, i: nat, j: nat)
    requires i <= j < |fields|
    ensures Saving(fields, i, j) == 8 * (j + 1) - 4 * (fields[j].number + 1) + StartScore(fields, i)
  {
  }

  const INT64_MIN: int := -0x8000_0000_0000_0000
  const INT64_MAX: int := 0x7FFF_FFFF_FFFF_FFFF

  /**
  The start and end of the interval with the greatest saving, if one saves anything, in one pass: of those the first
  to end, and of those the first to start.
  */
  method ChooseInterval(fields: seq<Field>) returns (begin: nat, end: nat, saving: int)
    requires Declared(fields) && |fields| <= MAX_NUMBER
    ensures saving > 0 ==> begin <= end < |fields| && saving == Saving(fields, begin, end)
    ensures forall i, j :: 0 <= i <= j < |fields| ==> Saving(fields, i, j) <= saving
    ensures saving >= 0
    ensures forall i, j ::
      0 <= i <= j < |fields| && 0 < saving == Saving(fields, i, j) ==> end < j || (end == j && begin <= i)
  {
    hide Saving, StartScore;
    begin, end, saving := 0, 0, 0;
    var best, bestIndex := INT64_MIN, 0;
    var e := 0;
    while e < |fields|
      invariant e <= |fields| && saving >= 0
      invariant e == 0 ==> best == INT64_MIN
      invariant e > 0 ==> bestIndex < e && best == StartScore(fields, bestIndex)
      invariant forall i :: 0 <= i < e ==> StartScore(fields, i) <= best
      invariant forall i :: 0 <= i < e && StartScore(fields, i) == best ==> bestIndex <= i
      invariant saving > 0 ==> begin <= end < e && saving == Saving(fields, begin, end)
      invariant forall i, j :: 0 <= i <= j < e ==> Saving(fields, i, j) <= saving
      invariant forall i, j ::
        0 <= i <= j < e && 0 < saving == Saving(fields, i, j) ==> end < j || (end == j && begin <= i)
    {
      var number := fields[e].number;
      var startScore := -8 * e + 4 * number;
      StartIs(fields, e);
      if startScore > best {
        best, bestIndex := startScore, e;
      }
      StartIs(fields, bestIndex);
      var endScore := 8 * (e + 1) - 4 * (number + 1);
      var s := endScore + best;
      assert INT64_MIN < startScore < INT64_MAX && INT64_MIN < endScore < INT64_MAX && INT64_MIN < s < INT64_MAX;
      SavingIs(fields, bestIndex, e);
      forall i | 0 <= i <= e
        ensures Saving(fields, i, e) <= s
        ensures Saving(fields, i, e) == s ==> bestIndex <= i {
        SavingIs(fields, i, e);
      }
      if s > saving {
        saving, begin, end := s, bestIndex, e;
      }
      e := e + 1;
    }
  }

  lemma StartIs(fields: seq<Field>, i: nat)
    requires i < |fields|
    ensures StartScore(fields, i) == -8 * i + 4 * fields[i].number
  {
  }

  // ---- The table ----

  /** A table: the first number it indexes, a value for each number from there on, and the other fields. */
  datatype Table = Table(base: nat, dense: seq<Location>, sparse: seq<Field>)

  /** What the slot for a number holds: nothing, with offset 0, if no field has the number. */
  function Slot(fields: seq<Field>, number: int): Location {
    if Lookup(fields, number) == NOWHERE then Location(0, 0) else Lookup(fields, number)
  }

  /** The field a walk over the numbers has come to: those before it have lower numbers, and it has none. */
  ghost predicate WalkedTo(fields: seq<Field>, i: nat, number: int) {
    && i <= |fields| && (i > 0 ==> fields[i - 1].number < number)
    && (i < |fields| ==> number <= fields[i].number)
  }

  lemma WalkedOn(fields: seq<Field>, i: nat, number: int)
    requires Declared(fields) && WalkedTo(fields, i, number)
    ensures i < |fields| && fields[i].number == number ==> Slot(fields, number) == At(fields[i])
    ensures i < |fields| && fields[i].number == number ==> WalkedTo(fields, i + 1, number + 1)
    ensures !(i < |fields| && fields[i].number == number) ==> Slot(fields, number) == Location(0, 0)
    ensures !(i < |fields| && fields[i].number == number) ==> WalkedTo(fields, i, number + 1)
  {
    hide Lookup;
    if i < |fields| && fields[i].number == number { LookupFinds(fields, i); } else { LookupBetween(fields, i, number); }
  }

  /** A slot for each number from that of field begin to that of field end. */
  method DenseFields(fields: seq<Field>, begin: nat, end: nat) returns (dense: seq<Location>)
    requires Declared(fields) && begin <= end < |fields|
    ensures |dense| == fields[end].number - fields[begin].number + 1
    ensures forall d {:trigger dense[d]} :: 0 <= d < |dense| ==> dense[d] == Slot(fields, fields[begin].number + d)
  {
    hide Slot, Lookup;
    assert begin < end ==> fields[begin].number < fields[end].number;
    assert begin > 0 ==> fields[begin - 1].number < fields[begin].number;
    var base := fields[begin].number;
    var span: nat := fields[end].number - fields[begin].number + 1;
    dense := [];
    var fieldIndex := begin;
    while |dense| < span
      invariant |dense| <= span && begin <= fieldIndex && WalkedTo(fields, fieldIndex, base + |dense|)
      invariant fieldIndex > end ==> |dense| == span
      invariant forall d {:trigger dense[d]} :: 0 <= d < |dense| ==> dense[d] == Slot(fields, base + d)
    {
      var number := base + |dense|;
      WalkedOn(fields, fieldIndex, number);
      if fieldIndex <= end && fields[fieldIndex].number == number {
        dense := dense + [At(fields[fieldIndex])];
        fieldIndex := fieldIndex + 1;
      } else {
        dense := dense + [Location(0, 0)];
      }
    }
  }

  /** The fields not indexed directly. */
  method SparseFields(fields: seq<Field>, has: bool, begin: nat, end: nat) returns (sparse: seq<Field>)
    requires has ==> begin <= end < |fields|
    ensures sparse == if has then fields[..begin] + fields[end + 1..] else fields
  {
    sparse := [];
    var i := 0;
    while i < |fields|
      invariant i <= |fields|
      invariant sparse == if !has || i <= begin
          then fields[..i] else fields[..begin] + (if i > end then fields[end + 1..i] else [])
    {
      if !(has && begin <= i <= end) {
        sparse := sparse + [fields[i]];
      }
      i := i + 1;
    }
  }

  /** The bytes of a table. */
  function TableSize(table: Table): nat {
    16 + 4 * |table.dense| + 8 * |table.sparse|
  }

  /** The table indexes no number directly, or those of fields begin to end. */
  ghost predicate IndexesInterval(fields: seq<Field>, table: Table, begin: nat, end: nat) {
    begin <= end < |fields| && table.base == fields[begin].number
    && |table.dense| == fields[end].number - fields[begin].number + 1 && |table.sparse| == |fields| - (end - begin + 1)
  }

  /** Of the smallest tables it is the one whose direct numbers end first and of those begin first, or has none. */
  ghost predicate FirstSmallest(fields: seq<Field>, table: Table, begin: nat, end: nat) {
    if table.dense == [] then
      table.base == 0 && forall i, j :: 0 <= i <= j < |fields| ==> SparseSize(fields) <= DenseSize(fields, i, j)
    else
      && IndexesInterval(fields, table, begin, end) && TableSize(table) < SparseSize(fields)
      && forall i, j {:trigger DenseSize(fields, i, j)} :: 0 <= i <= j < |fields| ==>
        TableSize(table) < DenseSize(fields, i, j)
        || (TableSize(table) == DenseSize(fields, i, j) && (end < j || (end == j && begin <= i)))
  }

  /** The table of a message's fields. */
  method GenerateFieldMetadata(fields: seq<Field>) returns (table: Table)
    requires Declared(fields) && |fields| <= MAX_NUMBER
    ensures Indexes(fields, table) && Packable(table)
    ensures TableSize(table) <= SparseSize(fields)
    ensures forall i, j :: 0 <= i <= j < |fields| ==> TableSize(table) <= DenseSize(fields, i, j)
    ensures exists begin: nat, end: nat {:trigger FirstSmallest(fields, table, begin, end)} ::
      FirstSmallest(fields, table, begin, end)
  {
    hide Saving, DenseSize, SparseSize, FirstSmallest, Lookup, Slot;
    var begin, end, saving := ChooseInterval(fields);
    var has := saving > 0;
    var dense := [];
    if has {
      dense := DenseFields(fields, begin, end);
    }
    var sparse := SparseFields(fields, has, begin, end);
    table := Table(if has then fields[begin].number else 0, dense, sparse);
    IndexesNow(fields, table, has, begin, end);
    if has { SlotsPackable(fields, begin, dense); }
    FirstSmallestNow(fields, table, begin, end, saving);
  }

  lemma FirstSmallestNow(fields: seq<Field>, table: Table, begin: nat, end: nat, saving: int)
    requires saving > 0 ==> begin <= end < |fields| && saving == Saving(fields, begin, end)
    requires saving > 0 ==> IndexesInterval(fields, table, begin, end) && table.dense != []
    requires saving <= 0 ==> saving == 0 && table == Table(0, [], fields)
    requires forall i, j :: 0 <= i <= j < |fields| ==> Saving(fields, i, j) <= saving
    requires forall i, j ::
      0 <= i <= j < |fields| && 0 < saving == Saving(fields, i, j) ==> end < j || (end == j && begin <= i)
    ensures FirstSmallest(fields, table, begin, end) && TableSize(table) <= SparseSize(fields)
    ensures forall i, j :: 0 <= i <= j < |fields| ==> TableSize(table) <= DenseSize(fields, i, j)
  {
    assert TableSize(table) == SparseSize(fields) - saving;
    forall i, j | 0 <= i <= j < |fields|
      ensures DenseSize(fields, i, j) == SparseSize(fields) - Saving(fields, i, j) {
    }
  }

  lemma SlotsPackable(fields: seq<Field>, begin: nat, dense: seq<Location>)
    requires Declared(fields) && begin < |fields|
    requires forall d {:trigger dense[d]} :: 0 <= d < |dense| ==> dense[d] == Slot(fields, fields[begin].number + d)
    ensures forall d {:trigger dense[d]} ::
        0 <= d < |dense|
        ==> 0 <= dense[d].offset < OFFSETS && 0 <= dense[d].id < IDS
  {
  }

  /** Every number's field is found in the slot for it, if there is one, or among the sparse fields. */
  ghost predicate Indexes(fields: seq<Field>, table: Table) {
    && Declared(table.sparse)
    && forall number: int {:trigger Lookup(fields, number)} :: Lookup(fields, number) == TableLookup(table, number)
  }

  /** Where a table says the field of a number is. */
  function TableLookup(table: Table, number: int): Location {
    if table.base <= number < table.base + |table.dense| then
      (if table.dense[number - table.base].offset == 0 then NOWHERE else table.dense[number - table.base])
    else Lookup(table.sparse, number)
  }

  lemma IndexesNow(fields: seq<Field>, table: Table, has: bool, begin: nat, end: nat)
    requires Declared(fields) && (has ==> begin <= end < |fields|)
    requires table.sparse == if has then fields[..begin] + fields[end + 1..] else fields
    requires has ==> table.base == fields[begin].number
    requires has ==> |table.dense| == fields[end].number - fields[begin].number + 1
    requires has ==> forall d {:trigger table.dense[d]} ::
        0 <= d < |table.dense|
        ==> table.dense[d] == Slot(fields, fields[begin].number + d)
    requires !has ==> table.dense == []
    ensures Indexes(fields, table)
  {
    hide Lookup, Slot, Declared;
    if has {
      RestDeclared(fields, begin, end);
      forall number: int ensures Lookup(fields, number) == TableLookup(table, number) {
        if table.base <= number < table.base + |table.dense| {
          assert table.dense[number - table.base] == Slot(fields, number);
          SlotMeans(fields, number);
        } else {
          LookupOutside(fields, begin, end, number);
        }
      }
    }
  }

  // ---- No table is smaller ----

  /** The numbers of some fields. */
  function NumbersOf(fields: seq<Field>): set<int> {
    set f | f in fields :: f.number
  }

  lemma {:induction false} DistinctNumbers(fields: seq<Field>)
    ensures |NumbersOf(fields)| <= |fields|
    ensures Ascending(fields) ==> |NumbersOf(fields)| == |fields|
  {
    if fields != [] {
      var n := |fields| - 1;
      DistinctNumbers(fields[..n]);
      assert fields == fields[..n] + [fields[n]];
      assert NumbersOf(fields) == NumbersOf(fields[..n]) + {fields[n].number};
      if Ascending(fields) {
        assert forall f :: f in fields[..n] ==> f.number < fields[n].number;
      }
    }
  }

  /** The fields not between i and j. */
  function Outside(fields: seq<Field>, i: nat, j: nat): seq<Field>
    requires i <= j <= |fields|
  {
    fields[..i] + fields[j..]
  }

  /** Fields whose numbers lie in a range are those from i up to j. */
  lemma RangeIs(fields: seq<Field>, lo: int, hi: int) returns (i: nat, j: nat)
    requires Ascending(fields)
    ensures i <= j <= |fields|
    ensures forall k {:trigger fields[k]} :: 0 <= k < |fields| ==> (lo <= fields[k].number < hi <==> i <= k < j)
  {
    i := 0;
    while i < |fields| && fields[i].number < lo
      invariant i <= |fields| && forall k {:trigger fields[k]} :: 0 <= k < i ==> fields[k].number < lo
    {
      i := i + 1;
    }
    j := i;
    while j < |fields| && fields[j].number < hi
      invariant i <= j <= |fields|
      invariant forall k {:trigger fields[k]} :: i <= k < j ==> lo <= fields[k].number < hi
    {
      j := j + 1;
    }
  }

  /** No table that leads every number to its field is smaller, whichever numbers it indexes directly. */
  lemma NoSmallerTable(fields: seq<Field>, table: Table, other: Table)
    requires Declared(fields) && Indexes(fields, other) && TableSize(table) <= SparseSize(fields)
    requires forall i, j :: 0 <= i <= j < |fields| ==> TableSize(table) <= DenseSize(fields, i, j)
    ensures TableSize(table) <= TableSize(other)
  {
    hide Lookup;
    var i, j := RangeIs(fields, other.base, other.base + |other.dense|);
    SparseHolds(fields, other, i, j);
    if i < j { assert TableSize(table) <= DenseSize(fields, i, j - 1); }
  }

  lemma SparseHolds(fields: seq<Field>, other: Table, i: nat, j: nat)
    requires Declared(fields) && Indexes(fields, other) && i <= j <= |fields|
    requires forall k {:trigger fields[k]} :: 0 <= k < |fields| ==>
      (other.base <= fields[k].number < other.base + |other.dense| <==> i <= k < j)
    ensures |fields| - (j - i) <= |other.sparse|
  {
    hide Lookup;
    var out := Outside(fields, i, j);
    forall f | f in out ensures f.number in NumbersOf(other.sparse) {
      var k :| 0 <= k < |fields| && fields[k] == f && !(i <= k < j);
      InSparse(fields, other, k);
    }
    assert NumbersOf(out) <= NumbersOf(other.sparse);
    SubsetSize(NumbersOf(out), NumbersOf(other.sparse));
    assert Ascending(out);
    DistinctNumbers(out);
    DistinctNumbers(other.sparse);
  }

  lemma InSparse(fields: seq<Field>, other: Table, k: nat)
    requires Declared(fields) && Indexes(fields, other) && k < |fields|
    requires !(other.base <= fields[k].number < other.base + |other.dense|)
    ensures fields[k].number in NumbersOf(other.sparse)
  {
    LookupFinds(fields, k);
    assert Lookup(fields, fields[k].number) == TableLookup(other, fields[k].number);
  }

  lemma {:induction false} SubsetSize<T>(a: set<T>, b: set<T>)
    requires a <= b
    ensures |a| <= |b|
  {
    if a != {} {
      var x :| x in a;
      SubsetSize(a - {x}, b - {x});
    }
  }

  // ---- Slots ----

  /** A slot is empty exactly if no field has the number, as no field is at offset 0. */
  lemma SlotMeans(fields: seq<Field>, number: int)
    requires Declared(fields)
    ensures if Slot(fields, number).offset == 0 then Lookup(fields, number) == NOWHERE
      else Lookup(fields, number) == Slot(fields, number)
  {
    hide Lookup;
  }

  lemma RestDeclared(fields: seq<Field>, begin: nat, end: nat)
    requires Declared(fields) && begin <= end < |fields|
    ensures Declared(fields[..begin] + fields[end + 1..])
  {
  }

  /** A number outside those of fields begin to end has the same field without them. */
  lemma LookupOutside(fields: seq<Field>, begin: nat, end: nat, number: int)
    requires Declared(fields) && begin <= end < |fields| && !(fields[begin].number <= number <= fields[end].number)
    ensures Lookup(fields[..begin] + fields[end + 1..], number) == Lookup(fields, number)
  {
    hide Lookup;
    var rest := fields[..begin] + fields[end + 1..];
    RestDeclared(fields, begin, end);
    if i :| 0 <= i < |fields| && fields[i].number == number {
      OutsideAt(fields, begin, end, number, i);
      LookupFinds(fields, i);
      LookupFinds(rest, if i < begin then i else i - (end + 1 - begin));
    } else {
      forall j | 0 <= j < |rest| ensures rest[j].number != number { RestAt(fields, begin, end, j); }
    }
  }

  lemma RestAt(fields: seq<Field>, begin: nat, end: nat, j: nat)
    requires begin <= end < |fields| && j < |fields[..begin] + fields[end + 1..]|
    ensures (fields[..begin] + fields[end + 1..])[j] == fields[if j < begin then j else j + (end + 1 - begin)]
  {
  }

  lemma OutsideAt(fields: seq<Field>, begin: nat, end: nat, number: int, i: nat)
    requires Declared(fields) && begin <= end < |fields| && !(fields[begin].number <= number <= fields[end].number)
    requires i < |fields| && fields[i].number == number
    ensures i < begin || i > end
    ensures var j := if i < begin then i else i - (end + 1 - begin); var rest := fields[..begin] + fields[end + 1..];
      0 <= j < |rest| && rest[j] == fields[i]
  {
  }

  // ---- Tables in a buffer ----

  const MAGIC: word := 0x50484431

  /** A value word: the offset in its low 24 bits and the id above them. */
  function Unpack(w: word): Location {
    Location(w % OFFSETS, w / OFFSETS)
  }

  function Pack(l: Location): word
    requires 0 <= l.offset < OFFSETS && 0 <= l.id < IDS
  {
    l.offset + l.id * OFFSETS
  }

  /** A field number and its value word. */
  function FieldIn(m: seq<byte>, o: nat): Field
    requires o + 8 <= |m|
  {
    Field(Get32(m, o), Unpack(Get32(m, o + 4)).offset, Unpack(Get32(m, o + 4)).id)
  }

  function FieldsIn(m: seq<byte>, o: nat, n: nat): (r: seq<Field>)
    requires o + 8 * n <= |m|
    ensures |r| == n
  {
    seq(n, i requires 0 <= i < n => FieldIn(m, o + 8 * i))
  }

  /** The table at `at` is all inside the memory. */
  predicate HybridInside(m: seq<byte>, at: nat) {
    at + 16 <= |m| && at + 16 + 4 * Get32(m, at + 8) + 8 * Get32(m, at + 12) <= |m|
  }

  predicate LegacyInside(m: seq<byte>, at: nat) {
    at + 4 <= |m| && at + 4 + 8 * Get32(m, at) <= |m|
  }

  /** The table whose words are at `at`. */
  function TableIn(m: seq<byte>, at: nat): Table
    requires HybridInside(m, at)
  {
    var span := Get32(m, at + 8);
    Table(Get32(m, at + 4), seq(span, d requires 0 <= d < span => Unpack(Get32(m, at + 16 + 4 * d))),
          FieldsIn(m, at + 16 + 4 * span, Get32(m, at + 12)))
  }

  // ---- Checks before reading a received table ----

  /** A range of `count` elements at `offset` lies in `limit` bytes, tested without a product that could wrap. */
  predicate MetadataRangeFits(offset: word, count: nat, elemSize: nat, limit: nat) {
    offset <= limit && (elemSize == 0 || count <= (limit - offset) / elemSize)
  }

  lemma RangeFits(offset: word, count: nat, elemSize: nat, limit: nat)
    requires elemSize > 0
    ensures MetadataRangeFits(offset, count, elemSize, limit) <==> offset + count * elemSize <= limit
  {
    if offset <= limit {
      var room := limit - offset;
      var q := room / elemSize;
      assert q * elemSize <= room < (q + 1) * elemSize;
      if count <= q { assert count * elemSize <= q * elemSize; } else { assert (q + 1) * elemSize <= count * elemSize; }
    }
  }

  /** Whether the table at `at` lies in the trusted bytes, whatever they hold: no offset it computes wraps. */
  method HybridTableFits(m: seq<byte>, at: word) returns (fits: bool)
    requires |m| < WORD_LIMIT
    ensures fits == HybridInside(m, at)
  {
    RangeFits(at, 1, 16, |m|);
    if !MetadataRangeFits(at, 1, 16, |m|) {
      return false;
    }
    var denseOffset := (at + 16) % WORD_LIMIT;
    var span := Get32(m, at + 8);
    RangeFits(denseOffset, span, 4, |m|);
    if !MetadataRangeFits(denseOffset, span, 4, |m|) {
      return false;
    }
    var sparseOffset := (denseOffset + (4 * span) % WORD_LIMIT) % WORD_LIMIT;
    RangeFits(sparseOffset, Get32(m, at + 12), 8, |m|);
    fits := MetadataRangeFits(sparseOffset, Get32(m, at + 12), 8, |m|);
  }

  method LegacyTableFits(m: seq<byte>, at: word) returns (fits: bool)
    requires |m| < WORD_LIMIT
    ensures fits == LegacyInside(m, at)
  {
    RangeFits(at, 1, 4, |m|);
    if !MetadataRangeFits(at, 1, 4, |m|) {
      return false;
    }
    var entries := (at + 4) % WORD_LIMIT;
    RangeFits(entries, Get32(m, at), 8, |m|);
    fits := MetadataRangeFits(entries, Get32(m, at), 8, |m|);
  }

  // ---- Finding a field ----

  /** Binary search of n fields in ascending order; in any other order it still reads only them. */
  method Search(m: seq<byte>, o: nat, n: word, number: word) returns (loc: Location)
    requires o + 8 * n <= |m|
    ensures Ascending(FieldsIn(m, o, n)) ==> loc == Lookup(FieldsIn(m, o, n), number)
  {
    ghost var fields := FieldsIn(m, o, n);
    var left, right: nat := 0, n;
    while left < right
      invariant left <= right <= n
      invariant Ascending(fields) ==> (left > 0 ==> fields[left - 1].number < number)
      invariant Ascending(fields) ==> (right < n ==> number < fields[right].number)
    {
      var mid := left + (right - left) / 2;
      var f := FieldIn(m, o + 8 * mid);
      assert f == fields[mid];
      if f.number == number {
        if Ascending(fields) { LookupFinds(fields, mid); }
        return At(f);
      }
      if f.number < number {
        left := mid + 1;
      } else {
        right := mid;
      }
    }
    if Ascending(fields) { LookupBetween(fields, left, number); }
    loc := NOWHERE;
  }

  method FindLegacyField(m: seq<byte>, at: nat, number: word) returns (loc: Location)
    requires LegacyInside(m, at)
    ensures var fields := FieldsIn(m, at + 4, Get32(m, at)); Ascending(fields) ==> loc == Lookup(fields, number)
  {
    loc := Search(m, at + 4, Get32(m, at), number);
  }

  method FindHybridField(m: seq<byte>, at: nat, number: word) returns (loc: Location)
    requires HybridInside(m, at)
    ensures Ascending(TableIn(m, at).sparse) ==> loc == TableLookup(TableIn(m, at), number)
  {
    hide Lookup;
    var base: nat, span: nat := Get32(m, at + 4), Get32(m, at + 8);
    if number >= base {
      var index := number - base;
      if index < span {
        var field := Unpack(Get32(m, at + 16 + 4 * index));
        assert field == TableIn(m, at).dense[index];
        return if field.offset == 0 then NOWHERE else field;
      }
    }
    loc := Search(m, at + 16 + 4 * span, Get32(m, at + 12), number);
  }

  // ---- The emitted table ----

  /** The bytes of a word, lowest first. */
  function WordBytes(w: word): (r: seq<byte>)
    ensures |r| == 4 && Get32(r, 0) == w
  {
    Put32([0, 0, 0, 0], 0, w)
  }

  function BytesOf(words: seq<word>): (r: seq<byte>)
    ensures |r| == 4 * |words|
  {
    if words == [] then [] else WordBytes(words[0]) + BytesOf(words[1..])
  }

  lemma {:induction false} WordOf(words: seq<word>, i: nat)
    requires i < |words|
    ensures Get32(BytesOf(words), 4 * i) == words[i]
  {
    var b := BytesOf(words);
    if i == 0 {
      assert b[..4] == WordBytes(words[0]);
      assert Get32(b, 0) == Get32(b[..4], 0);
    } else {
      WordOf(words[1..], i - 1);
      assert b[4..] == BytesOf(words[1..]);
      assert Get32(b, 4 * i) == Get32(b[4..], 4 * (i - 1));
    }
  }

  /** A number and a value word for each field. */
  function FieldWords(fields: seq<Field>): (r: seq<word>)
    requires Declared(fields)
    ensures |r| == 2 * |fields|
    ensures forall i {:trigger fields[i]} ::
        0 <= i < |fields|
        ==> r[2 * i] == fields[i].number && r[2 * i + 1] == Pack(At(fields[i]))
  {
    if fields == [] then []
    else
      var last := fields[|fields| - 1];
      FieldWords(fields[..|fields| - 1]) + [last.number, Pack(At(last))]
  }

  ghost predicate Packable(table: Table) {
    && table.base < WORD_LIMIT && |table.dense| < WORD_LIMIT && |table.sparse| < WORD_LIMIT && Declared(table.sparse)
    && forall d {:trigger table.dense[d]} ::
      0 <= d < |table.dense|
      ==> 0 <= table.dense[d].offset < OFFSETS && 0 <= table.dense[d].id < IDS
  }

  ghost function TableWords(table: Table): seq<word>
    requires Packable(table)
  {
    [MAGIC, table.base, |table.dense|, |table.sparse|]
    + seq(|table.dense|, d requires 0 <= d < |table.dense| => Pack(table.dense[d])) + FieldWords(table.sparse)
  }

  lemma EmittedField(words: seq<word>, k: nat, f: Field)
    requires k + 2 <= |words| && words[k] == f.number && f.offset < OFFSETS && f.id < IDS && words[k + 1] == Pack(At(f))
    ensures FieldIn(BytesOf(words), 4 * k) == f
  {
    hide BytesOf, Get32, Pack, Unpack;
    WordOf(words, k);
    WordOf(words, k + 1);
    PackUnpack(At(f));
  }

  /** Reading emitted fields gives them back. */
  lemma EmittedFields(words: seq<word>, k: nat, fields: seq<Field>)
    requires Declared(fields) && k + 2 * |fields| <= |words| && words[k..k + 2 * |fields|] == FieldWords(fields)
    ensures FieldsIn(BytesOf(words), 4 * k, |fields|) == fields
  {
    hide BytesOf, Get32, FieldWords, FieldIn, Pack, Declared;
    var r := FieldsIn(BytesOf(words), 4 * k, |fields|);
    forall j | 0 <= j < |fields| ensures r[j] == fields[j] { EmittedFieldAt(words, k, fields, j); }
  }

  lemma EmittedFieldAt(words: seq<word>, k: nat, fields: seq<Field>, j: nat)
    requires Declared(fields) && k + 2 * |fields| <= |words| && words[k..k + 2 * |fields|] == FieldWords(fields)
    requires j < |fields|
    ensures 4 * k + 8 * j + 8 <= |BytesOf(words)| && FieldIn(BytesOf(words), 4 * k + 8 * j) == fields[j]
  {
    hide BytesOf, Get32, FieldWords, FieldIn, Pack, Declared;
    FieldWordsAt(fields, j);
    PartWords(words, k, 2 * |fields|, 2 * j);
    EmittedField(words, k + 2 * j, fields[j]);
    assert 4 * (k + 2 * j) == 4 * k + 8 * j;
  }

  lemma FieldWordsAt(fields: seq<Field>, j: nat)
    requires Declared(fields) && j < |fields|
    ensures FieldWords(fields)[2 * j] == fields[j].number && FieldWords(fields)[2 * j + 1] == Pack(At(fields[j]))
    ensures 0 <= fields[j].offset < OFFSETS && 0 <= fields[j].id < IDS
  {
  }

  lemma PartWords(words: seq<word>, k: nat, n: nat, j: nat)
    requires k + n <= |words| && j + 2 <= n
    ensures words[k..k + n][j] == words[k + j] && words[k..k + n][j + 1] == words[k + j + 1]
  {
  }

  /** Reading an emitted table gives the table back. */
  lemma EmittedTable(table: Table)
    requires Packable(table)
    ensures var m := BytesOf(TableWords(table)); HybridInside(m, 0) && TableIn(m, 0) == table
  {
    hide BytesOf, Get32, FieldWords;
    var words := TableWords(table);
    var span := |table.dense|;
    WordOf(words, 1);
    WordOf(words, 2);
    WordOf(words, 3);
    assert words[4 + span..4 + span + 2 * |table.sparse|] == FieldWords(table.sparse);
    EmittedFields(words, 4 + span, table.sparse);
    forall d | 0 <= d < span ensures TableIn(BytesOf(words), 0).dense[d] == table.dense[d] {
      WordOf(words, 4 + d);
      PackUnpack(table.dense[d]);
    }
  }

  /** The memory holds the bytes b at `at`. */
  predicate HoldsBytes(m: seq<byte>, at: nat, b: seq<byte>) {
    at + |b| <= |m| && m[at..at + |b|] == b
  }

  lemma HeldWord(m: seq<byte>, at: nat, b: seq<byte>, o: nat)
    requires HoldsBytes(m, at, b) && o + 4 <= |b|
    ensures Get32(m, at + o) == Get32(b, o)
  {
    assert forall i {:trigger b[o + i]} :: 0 <= i < 4 ==> m[at + o + i] == b[o + i];
    assert b[o + 0] == m[at + o] && b[o + 1] == m[at + o + 1] && b[o + 2] == m[at + o + 2] && b[o + 3] == m[at + o + 3];
  }

  lemma HeldFields(m: seq<byte>, at: nat, b: seq<byte>, o: nat, n: nat)
    requires HoldsBytes(m, at, b) && o + 8 * n <= |b|
    ensures FieldsIn(m, at + o, n) == FieldsIn(b, o, n)
  {
    hide HoldsBytes, Get32, Unpack;
    assert at + |b| <= |m| by { HeldInside(m, at, b); }
    var r, q := FieldsIn(m, at + o, n), FieldsIn(b, o, n);
    forall i | 0 <= i < n ensures r[i] == q[i] {
      HeldWord(m, at, b, o + 8 * i);
      HeldWord(m, at, b, o + 8 * i + 4);
    }
  }

  lemma HeldInside(m: seq<byte>, at: nat, b: seq<byte>)
    requires HoldsBytes(m, at, b)
    ensures at + |b| <= |m|
  {
  }

  /** A table is the same wherever its bytes are. */
  lemma HeldTable(m: seq<byte>, at: nat, b: seq<byte>)
    requires HoldsBytes(m, at, b) && HybridInside(b, 0)
    ensures HybridInside(m, at) && TableIn(m, at) == TableIn(b, 0) && Get32(m, at) == Get32(b, 0)
  {
    hide HoldsBytes, Get32, Unpack, FieldIn;
    HeldInside(m, at, b);
    HeldWord(m, at, b, 0);
    HeldWord(m, at, b, 4);
    HeldWord(m, at, b, 8);
    HeldWord(m, at, b, 12);
    var span: nat := Get32(b, 8);
    HeldFields(m, at, b, 16 + 4 * span, Get32(b, 12));
    forall d | 0 <= d < span ensures TableIn(m, at).dense[d] == TableIn(b, 0).dense[d] {
      HeldWord(m, at, b, 16 + 4 * d);
    }
  }

  /** An emitted table, wherever its bytes are, leads from every number to the declared field, if there is one. */
  lemma HeldTableFinds(m: seq<byte>, at: nat, fields: seq<Field>, table: Table, number: int)
    requires Declared(fields) && Packable(table) && Indexes(fields, table)
    requires HoldsBytes(m, at, BytesOf(TableWords(table)))
    ensures HybridInside(m, at) && Get32(m, at) == MAGIC && Ascending(TableIn(m, at).sparse)
    ensures TableLookup(TableIn(m, at), number) == Lookup(fields, number)
  {
    hide HoldsBytes, BytesOf, TableIn, Lookup, FieldWords, HybridInside, Get32;
    EmittedTable(table);
    WordOf(TableWords(table), 0);
    HeldTable(m, at, BytesOf(TableWords(table)));
    assert Lookup(fields, number) == TableLookup(table, number);
  }

  ghost function LegacyWords(fields: seq<Field>): seq<word>
    requires Declared(fields) && |fields| < WORD_LIMIT
  {
    [|fields|] + FieldWords(fields)
  }

  /**
  For every number, declared or not, the field found in the emitted table is the one found in the list of all
  the fields.
  */
  lemma HybridFindsWhatLegacyFinds(fields: seq<Field>, table: Table, number: int)
    requires Declared(fields) && |fields| < WORD_LIMIT && Packable(table) && Indexes(fields, table)
    ensures var m := BytesOf(TableWords(table)); var l := BytesOf(LegacyWords(fields));
      && HybridInside(m, 0) && LegacyInside(l, 0)
      && TableLookup(TableIn(m, 0), number) == Lookup(FieldsIn(l, 4, Get32(l, 0)), number)
  {
    hide Lookup, BytesOf, FieldWords, TableIn;
    EmittedTable(table);
    var words := LegacyWords(fields);
    WordOf(words, 0);
    assert words[1..1 + 2 * |fields|] == FieldWords(fields);
    EmittedFields(words, 1, fields);
    assert Lookup(fields, number) == TableLookup(table, number);
  }

  lemma PackUnpack(l: Location)
    requires 0 <= l.offset < OFFSETS && 0 <= l.id < IDS
    ensures Unpack(Pack(l)) == l
  {
  }
}
