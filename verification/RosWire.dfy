/**
ROS1 serialization: a buffer whose writes append all their bytes or none, and a reader that gets back what was
written.  Numbers are little-endian, whatever the host; strings and sequences have a 32-bit length before them.
*/
module RosWires {
  import opened Bytes
  import opened VectorChunks

  /** A size_t counts up to one less. */
  const SIZE_LIMIT: nat := 0x1_0000_0000_0000_0000

  datatype Option<T> = None | Some(value: T)

  // ---- Numbers ----

  function Pow256(k: nat): (r: nat)
    ensures r > 0
  {
    if k == 0 then 1 else 256 * Pow256(k - 1)
  }

  /** The low bytes of a number, lowest first. */
  function Little(value: nat, width: nat): (r: seq<byte>)
    ensures |r| == width
  {
    if width == 0 then [] else [value % 256] + Little(value / 256, width - 1)
  }

  /** The number whose bytes these are, lowest first. */
  function NumberOf(b: seq<byte>): nat {
    if b == [] then 0 else b[0] + 256 * NumberOf(b[1..])
  }

  lemma {:induction false} LittleNumber(value: nat, width: nat)
    requires value < Pow256(width)
    ensures NumberOf(Little(value, width)) == value
  {
    if width > 0 {
      LittleNumber(value / 256, width - 1);
      assert Little(value, width)[1..] == Little(value / 256, width - 1);
    }
  }

  lemma {:induction false} NumberLittle(b: seq<byte>)
    ensures NumberOf(b) < Pow256(|b|) && Little(NumberOf(b), |b|) == b
  {
    hide Pow256, Little;
    if b == [] {
      NoBytesLittle();
    } else {
      var n := NumberOf(b[1..]);
      NumberLittle(b[1..]);
      Shifted(b[0], n, Pow256(|b| - 1));
      LittleHead(b[0] + 256 * n, |b|);
      PowOn(|b| - 1);
      assert b == [b[0]] + b[1..];
    }
  }

  lemma NoBytesLittle()
    ensures Pow256(0) == 1 && Little(0, 0) == []
  {
  }

  lemma PowOn(k: nat)
    ensures Pow256(k + 1) == 256 * Pow256(k)
  {
  }

  lemma Shifted(low: byte, n: nat, p: nat)
    requires n < p
    ensures (low + 256 * n) % 256 == low && (low + 256 * n) / 256 == n && low + 256 * n < 256 * p
  {
  }

  /** One more byte, above those there are. */
  lemma {:induction false} NumberOn(b: seq<byte>, x: byte)
    ensures NumberOf(b + [x]) == NumberOf(b) + x * Pow256(|b|)
  {
    if b == [] {
      assert [x][1..] == [];
    } else {
      NumberOn(b[1..], x);
      assert (b + [x])[1..] == b[1..] + [x];
      Higher(x, |b|);
    }
  }

  lemma Higher(x: nat, k: nat)
    requires k > 0
    ensures 256 * (x * Pow256(k - 1)) == x * Pow256(k)
  {
  }

  /** All numbers of an array. */
  function LittleAll(values: seq<nat>, width: nat): (r: seq<byte>)
    ensures |r| == |values| * width
  {
    if values == [] then [] else LittleAll(values[..|values| - 1], width) + Little(values[|values| - 1], width)
  }

  // ---- Writing ----

  datatype Status = Ok | Exhausted | Invalid

  /** The capacity a buffer that is too small is given: doubled until it is enough, unless that would overflow. */
  function NewCapacity(capacity: nat, required: nat): (r: nat)
    requires capacity > 0
    ensures r >= required && r >= capacity
    decreases required - capacity
  {
    if capacity >= required then capacity
    else if capacity > (SIZE_LIMIT - 1) / 2 then required
    else NewCapacity(2 * capacity, required)
  }

  /**
  The capacity doubled until it is at least `required`, and no further; or just that if it cannot be doubled any
  more in 64 bits.
  */
  ghost predicate LeastCapacity(capacity: nat, required: nat, r: nat) {
    exists k: nat {:trigger DoubledBy(capacity, k)} ::
      && (forall j: nat {:trigger DoubledBy(capacity, j)} ::
        j < k ==> DoubledBy(capacity, j) < required && DoubledBy(capacity, j) < 0x8000_0000_0000_0000)
      && (if r == DoubledBy(capacity, k) then r >= required
          else r == required && 0x8000_0000_0000_0000 <= DoubledBy(capacity, k) < required)
  }

  lemma {:induction false} NewCapacityIsLeast(capacity: nat, required: nat)
    requires capacity > 0
    ensures LeastCapacity(capacity, required, NewCapacity(capacity, required))
    decreases required - capacity
  {
    hide DoubledBy;
    DoubledOnce(capacity, 0);
    if capacity < required && capacity <= (SIZE_LIMIT - 1) / 2 {
      NewCapacityIsLeast(2 * capacity, required);
      CapacityOnce(capacity, required, NewCapacity(2 * capacity, required));
    } else {
      assert DoubledBy(capacity, 0) == capacity;
    }
  }

  lemma CapacityOnce(capacity: nat, required: nat, r: nat)
    requires LeastCapacity(2 * capacity, required, r) && capacity < required && capacity < 0x8000_0000_0000_0000
    ensures LeastCapacity(capacity, required, r)
  {
    hide DoubledBy;
    var k: nat :|
      && (forall j: nat {:trigger DoubledBy(2 * capacity, j)} ::
        j < k ==> DoubledBy(2 * capacity, j) < required && DoubledBy(2 * capacity, j) < 0x8000_0000_0000_0000)
      && (if r == DoubledBy(2 * capacity, k) then r >= required
          else r == required && 0x8000_0000_0000_0000 <= DoubledBy(2 * capacity, k) < required);
    DoubledOnce(capacity, k);
    DoubledOnce(capacity, 0);
    forall j: nat | j < k + 1
      ensures DoubledBy(capacity, j) < required && DoubledBy(capacity, j) < 0x8000_0000_0000_0000 {
      if j > 0 { DoubledOnce(capacity, j - 1); }
    }
    assert r == DoubledBy(capacity, k + 1) <==> r == DoubledBy(2 * capacity, k);
  }

  class RosBuffer {
    const owned: bool
    /** Whether the host keeps numbers lowest byte first. */
    const littleEndian: bool
    /** The largest memory that can be had. */
    const memory: nat
    var data: array?<byte>
    var capacity: nat
    var size: nat
    var failed: bool

    ghost predicate Valid()
      reads this
    {
      && size <= capacity < SIZE_LIMIT
      && (data != null ==> data.Length == capacity)
      && (data == null ==> size == 0)
      && (owned ==> 0 < capacity && (data == null ==> failed))
    }

    ghost function Contents(): seq<byte>
      requires Valid()
      reads this, data
    {
      if data == null then [] else data[..size]
    }

    /** Whether there is room for `length` more bytes, or can be made. */
    ghost function Space(length: nat): Status
      requires Valid()
      reads this
    {
      if failed then Exhausted
      else if data == null && capacity != 0 then Invalid
      else if length > SIZE_LIMIT - 1 - size then Exhausted
      else if size + length <= capacity then Ok
      else if !owned || NewCapacity(capacity, size + length) > memory then Exhausted
      else Ok
    }

    lemma TooLong(length: nat)
      requires Valid() && length >= SIZE_LIMIT
      ensures !Space(length).Ok?
    {
    }

    /** There is room for `length` more bytes already. */
    ghost predicate Roomy(length: nat)
      requires Valid()
      reads this
    {
      data != null && !failed && length <= capacity - size
    }

    constructor Owned(initial: nat, littleEndian: bool, memory: nat)
      requires initial < SIZE_LIMIT
      ensures Valid() && Contents() == [] && owned && this.littleEndian == littleEndian && this.memory == memory
      ensures capacity == (if initial < 16 then 16 else initial) && failed == (capacity > memory)
      ensures data == null || fresh(data)
    {
      this.owned, this.littleEndian, this.memory := true, littleEndian, memory;
      var n := if initial < 16 then 16 else initial;
      this.capacity, this.size, this.failed := n, 0, n > memory;
      if n > memory {
        this.data := null;
      } else {
        this.data := new byte[n](_ => 0);
      }
    }

    /** A buffer in memory of the caller's, which may be missing. */
    constructor Over(data: array?<byte>, size: nat, littleEndian: bool)
      requires size < SIZE_LIMIT && (data != null ==> data.Length == size)
      ensures Valid() && Contents() == [] && !owned && this.data == data && capacity == size && !failed
      ensures this.littleEndian == littleEndian
    {
      this.owned, this.littleEndian, this.memory := false, littleEndian, 0;
      this.data, this.capacity, this.size, this.failed := data, size, 0, false;
    }

    /** The bytes were appended if there was space for them, and otherwise nothing was.  Only a buffer that owns its
        memory is moved. */
    twostate predicate Appended(status: Status, bytes: seq<byte>)
      requires old(Valid())
      reads this, data
    {
      && Valid() && (data == old(data) || fresh(data))
      && Contents() == old(Contents()) + (if status.Ok? then bytes else [])
      && (!owned ==> data == old(data) && capacity == old(capacity) && failed == old(failed))
    }

    /**
    A write that succeeded took `length` bytes, and after one that did not there is no space for them still; where
    there was room for them it succeeded, and moved nothing.
    */
    twostate predicate Took(status: Status, length: nat)
      requires old(Valid()) && Valid()
      reads this
    {
      && (if status.Ok? then !failed && size == old(size) + length else !Space(length).Ok?)
      && (old(Roomy(length)) ==> status.Ok? && data == old(data) && capacity == old(capacity))
    }

    // ---- Room ----

    /** Makes room for `length` more bytes, growing the buffer if it owns its memory. */
    method EnsureSpace(length: nat) returns (status: Status)
      requires Valid() && length < SIZE_LIMIT
      modifies this
      ensures status == old(Space(length)) && Appended(Ok, []) && size == old(size)
      ensures status.Ok? ==> length <= capacity - size && (length > 0 ==> data != null) && !failed
      ensures !status.Ok? ==> !Space(length).Ok?
      ensures old(Roomy(length)) ==> status.Ok? && data == old(data) && capacity == old(capacity)
      ensures capacity == old(capacity) || LeastCapacity(old(capacity), size + length, capacity)
    {
      if data != null && !failed && length <= capacity - size {
        return Ok;
      }
      status := EnsureSpaceSlow(length);
    }

    method EnsureSpaceSlow(length: nat) returns (status: Status)
      requires Valid() && length < SIZE_LIMIT
      modifies this
      ensures status == old(Space(length)) && Appended(Ok, []) && size == old(size)
      ensures status.Ok? ==> length <= capacity - size && (length > 0 ==> data != null) && !failed
      ensures !status.Ok? ==> !Space(length).Ok?
      ensures capacity == old(capacity) || LeastCapacity(old(capacity), size + length, capacity)
    {
      if failed {
        return Exhausted;
      }
      if data == null && capacity != 0 {
        return Invalid;
      }
      if length > SIZE_LIMIT - 1 - size {
        return Exhausted;
      }
      var required := size + length;
      if required <= capacity {
        return Ok;
      }
      if !owned {
        return Exhausted;
      }
      var newCapacity := capacity;
      while newCapacity < required
        invariant newCapacity > 0 && newCapacity < SIZE_LIMIT
        invariant NewCapacity(newCapacity, required) == NewCapacity(capacity, required)
        decreases required - newCapacity
      {
        if newCapacity > (SIZE_LIMIT - 1) / 2 {
          newCapacity := required;
          break;
        }
        newCapacity := newCapacity * 2;
      }
      assert newCapacity == NewCapacity(capacity, required);
      NewCapacityIsLeast(capacity, required);
      if newCapacity > memory {
        failed := true;
        return Exhausted;
      }
      Relocate(newCapacity);
      status := Ok;
    }

    /** realloc. */
    method Relocate(newCapacity: nat)
      requires Valid() && data != null && capacity <= newCapacity < SIZE_LIMIT
      modifies this`data, this`capacity
      ensures Valid() && Contents() == old(Contents()) && capacity == newCapacity && data != null && fresh(data)
    {
      var replacement := new byte[newCapacity](_ => 0);
      forall i | 0 <= i < size {
        replacement[i] := data[i];
      }
      data, capacity := replacement, newCapacity;
    }

    // ---- Writes ----

    /** Writes the low bytes of a number at `at`: copied from the host's, or shifted out one by one. */
    method StoreLittleEndian(at: nat, value: nat, width: nat)
      requires data != null && at + width <= data.Length
      modifies data
      ensures data[..] == old(data[..at]) + Little(value, width) + old(data[at + width..])
    {
      if littleEndian {
        CopyNumber(at, Little(value, width));
      } else {
        ShiftNumber(at, value, width);
      }
    }

    method CopyNumber(at: nat, host: seq<byte>)
      requires data != null && at + |host| <= data.Length
      modifies data
      ensures data[..] == old(data[..at]) + host + old(data[at + |host|..])
    {
      forall i | 0 <= i < |host| {
        data[at + i] := host[i];
      }
    }

    method ShiftNumber(at: nat, value: nat, width: nat)
      requires data != null && at + width <= data.Length
      modifies data
      ensures data[..] == old(data[..at]) + Little(value, width) + old(data[at + width..])
    {
      hide Little;
      ghost var was, all := data[..], Little(value, width);
      var rest := value;
      for i := 0 to width
        invariant data[..at + i] == was[..at] + all[..i] && data[at + i..] == was[at + i..]
        invariant all[i..] == Little(rest, width - i)
      {
        LittleHead(rest, width - i);
        assert all[i] == all[i..][0] && all[i + 1..] == all[i..][1..];
        data[at + i] := rest % 256;
        rest := rest / 256;
        assert data[..at + i + 1] == was[..at] + all[..i] + [all[i]];
      }
      assert all[..width] == all;
      assert data[..] == data[..at + width] + data[at + width..];
    }

    /** Appends bytes for which there is room. */
    method Put(source: seq<byte>)
      requires Valid() && |source| <= capacity - size && data != null
      modifies this`size, data
      ensures Appended(Ok, source) && data == old(data) && size == old(size) + |source|
    {
      forall i | 0 <= i < |source| {
        data[size + i] := source[i];
      }
      size := size + |source|;
    }

    /** Appends a number for which there is room. */
    method PutNumber(value: nat, width: nat)
      requires Valid() && width <= capacity - size && data != null
      modifies this`size, data
      ensures Appended(Ok, Little(value, width)) && data == old(data) && size == old(size) + width
    {
      ghost var was := data[..size];
      StoreLittleEndian(size, value, width);
      size := size + width;
      assert data[..size] == was + Little(value, width);
    }

    method WriteRaw(source: seq<byte>) returns (status: Status)
      requires Valid() && |source| < SIZE_LIMIT
      modifies this, data
      ensures status == (if source == [] then Ok else old(Space(|source|))) && Appended(status, source)
    {
      hide Space, NewCapacity;
      if |source| == 0 {
        return Ok;
      }
      status := EnsureSpace(|source|);
      if status.Ok? {
        Put(source);
      }
    }

    method WriteZeros(length: nat) returns (status: Status)
      requires Valid() && length < SIZE_LIMIT
      modifies this, data
      ensures status == old(Space(length)) && Appended(status, seq(length, _ => 0))
    {
      status := EnsureSpace(length);
      if status.Ok? && length != 0 {
        Put(seq(length, _ => 0));
      }
    }

    /** A number of 1, 2, 4 or 8 bytes; floating-point and signed numbers are their bits, and a flag is 1 or 0. */
    method Write(value: nat, width: nat) returns (status: Status)
      requires Valid() && 0 < width <= 8
      modifies this, data
      ensures status == old(Space(width)) && Appended(status, Little(value, width)) && Took(status, width)
    {
      hide Little, Space, NewCapacity;
      status := EnsureSpace(width);
      if status.Ok? {
        PutNumber(value, width);
      }
    }

    method WriteSequenceLength(length: nat) returns (status: Status)
      requires Valid()
      modifies this, data
      ensures status == if length < WORD_LIMIT then old(Space(4)) else Invalid
      ensures Appended(status, Little(length, 4))
    {
      if length > WORD_LIMIT - 1 {
        return Invalid;
      }
      status := Write(length, 4);
    }

    method WriteString(value: seq<byte>) returns (status: Status)
      requires Valid() && |value| + 4 < SIZE_LIMIT
      modifies this, data
      ensures status == if |value| < WORD_LIMIT then old(Space(4 + |value|)) else Invalid
      ensures Appended(status, Little(|value|, 4) + value)
      ensures |value| < WORD_LIMIT ==> Took(status, 4 + |value|)
    {
      hide Little, Space, NewCapacity;
      if |value| > WORD_LIMIT - 1 {
        return Invalid;
      }
      status := EnsureSpace(4 + |value|);
      if status.Ok? {
        PutString(value);
      }
    }

    /** Appends a string for which there is room, its length first. */
    method PutString(value: seq<byte>)
      requires Valid() && 4 + |value| <= capacity - size && data != null
      modifies this`size, data
      ensures Appended(Ok, Little(|value|, 4) + value) && data == old(data) && size == old(size) + 4 + |value|
    {
      hide Little, Space, NewCapacity;
      ghost var was := Contents();
      PutNumber(|value|, 4);
      assert Contents() == was + Little(|value|, 4);
      if |value| != 0 {
        Put(value);
      }
      assert was + Little(|value|, 4) + value == was + (Little(|value|, 4) + value);
    }

    /** An array of numbers, copied whole if the host has them as they are written. */
    method WriteArray(values: seq<nat>, width: nat) returns (status: Status)
      requires Valid() && 0 < width <= 8 && |values| < SIZE_LIMIT
      modifies this, data
      ensures var n := Product(|values|, width); status == if n < SIZE_LIMIT then old(Space(n)) else Exhausted
      ensures Appended(status, LittleAll(values, width)) && Took(status, Product(|values|, width))
    {
      hide Little, LittleAll, Product, Space, NewCapacity;
      CountLimit(|values|, width);
      if |values| > (SIZE_LIMIT - 1) / width {
        TooLong(Product(|values|, width));
        return Exhausted;
      }
      status := EnsureSpace(|values| * width);
      LittleNone(width);
      if !status.Ok? || |values| == 0 {
        return;
      }
      if littleEndian {
        Put(LittleAll(values, width));
        return;
      }
      WriteEach(values, width);
    }

    /** Appends numbers one by one, for all of which there is room. */
    method WriteEach(values: seq<nat>, width: nat)
      requires Valid() && 0 < width <= 8 && Product(|values|, width) <= capacity - size && data != null && !failed
      modifies this, data
      ensures Appended(Ok, LittleAll(values, width)) && Took(Ok, Product(|values|, width))
    {
      hide Little, LittleAll, Product, Space, NewCapacity;
      ghost var was, d := Contents(), data;
      var i := 0;
      LittleNone(width);
      while i < |values|
        invariant i <= |values| && Valid() && data == d && data != null && !failed
        invariant Contents() == was + LittleAll(values[..i], width)
        invariant Product(|values| - i, width) <= capacity - size && capacity == old(capacity)
        invariant size + Product(|values| - i, width) == old(size) + Product(|values|, width)
      {
        OneMore(|values| - i, width);
        LittleOn(was, values, i, width);
        var status := Write(values[i], width);
        i := i + 1;
      }
      assert values[..|values|] == values;
      NoMore(width);
    }

    // ---- Lists of items ----

    /** Writes an item, whose bytes are appended all or not at all. */
    method WriteItem(item: Item) returns (status: Status)
      requires Valid() && item.Fits()
      modifies this, data
      ensures status == old(Space(|item.Bytes()|)) && Appended(status, item.Bytes())
      ensures Took(status, |item.Bytes()|)
      ensures status.Ok? ==> |old(Contents())| <= |Contents()| && OnWire(item, Contents()[|old(Contents())|..])
    {
      hide Little, LittleAll, NewCapacity, Pow256, OnWire, Took;
      ItemOnWire(item);
      ghost var was := Contents();
      match item
      case Number(value, width) => status := Write(value, width);
      case Flag(on) => status := Write(if on then 1 else 0, 1);
      case Text(chars) => status := WriteString(chars);
      case Many(all, each) => status := WriteArray(all, each);
      if status.Ok? { AddedIs(was, item.Bytes()); }
    }

    /** Writes items up to the first for which there is no space; n of them are written. */
    method WriteItems(items: seq<Item>) returns (status: Status, n: nat)
      requires Valid() && AllFit(items)
      modifies this, data
      ensures n <= |items| && (status.Ok? <==> n == |items|) && Appended(Ok, BytesOf(items[..n]))
      ensures !status.Ok? ==> !Space(|items[n].Bytes()|).Ok?
      ensures old(Roomy(|BytesOf(items)|)) ==> status.Ok?
      ensures !owned && data != null && status.Ok? && items != [] ==> old(Roomy(|BytesOf(items)|))
    {
      hide BytesOf, Item.Bytes, Item.Fits, NewCapacity, Space, OnWire, AllFit;
      ghost var was, d, room := Contents(), data, Roomy(|BytesOf(items)|);
      n, status := 0, Ok;
      FirstNone(items);
      while n < |items|
        invariant n <= |items| && status.Ok? && Valid() && (data == d || fresh(data))
        invariant Contents() == was + BytesOf(items[..n])
        invariant room ==> Roomy(|BytesOf(items[n..])|)
        invariant !owned ==> data == d && capacity == old(capacity) && failed == old(failed)
        invariant size == old(size) + |BytesOf(items[..n])| && (n > 0 ==> !failed)
      {
        NextBytes(items, n);
        ItemFits(items, n);
        Grouped(was, BytesOf(items[..n]), items[n].Bytes());
        status := WriteItem(items[n]);
        if !status.Ok? {
          return;
        }
        n := n + 1;
      }
      assert items[..n] == items;
    }
  }

  function Product(n: nat, width: nat): nat {
    n * width
  }

  lemma LittleNone(width: nat)
    ensures LittleAll([], width) == []
  {
  }

  lemma LittleOn(was: seq<byte>, values: seq<nat>, i: nat, width: nat)
    requires i < |values|
    ensures was + LittleAll(values[..i + 1], width) == was + LittleAll(values[..i], width) + Little(values[i], width)
  {
    assert values[..i + 1][..i] == values[..i];
  }

  lemma LittleHead(value: nat, width: nat)
    requires width > 0
    ensures Little(value, width) == [value % 256] + Little(value / 256, width - 1)
  {
  }

  lemma CountLimit(n: nat, width: nat)
    requires width > 0
    ensures n <= (SIZE_LIMIT - 1) / width <==> Product(n, width) < SIZE_LIMIT
    ensures n * width == Product(n, width) && (Product(n, width) == 0 <==> n == 0)
  {
    var q := (SIZE_LIMIT - 1) / width;
    if n <= q { assert n * width <= q * width; } else { assert (q + 1) * width <= n * width; }
  }

  lemma OneMore(n: nat, width: nat)
    requires n > 0
    ensures Product(n, width) == Product(n - 1, width) + width
  {
  }

  lemma NoMore(width: nat)
    ensures Product(0, width) == 0
  {
  }

  // ---- What is written, and what is read ----

  /** One thing written: a number, a flag, a sequence's length, a string, or an array whose length is known. */
  datatype Item =
    | Number(value: nat, width: nat)
    | Flag(on: bool)
    | Text(chars: seq<byte>)
    | Many(all: seq<nat>, each: nat)
  {
    ghost predicate Fits() {
      match this
      case Number(value, width) => 0 < width <= 8 && value < Pow256(width)
      case Flag(_) => true
      case Text(chars) => |chars| < WORD_LIMIT
      case Many(all, each) =>
        && 0 < each <= 8 && |all| * each < SIZE_LIMIT
        && forall i {:trigger all[i]} :: 0 <= i < |all| ==> all[i] < Pow256(each)
    }

    function Bytes(): seq<byte> {
      match this
      case Number(value, width) => Little(value, width)
      case Flag(on) => Little(if on then 1 else 0, 1)
      case Text(chars) => Little(|chars|, 4) + chars
      case Many(all, each) => LittleAll(all, each)
    }

    function ShapeOf(): Shape {
      match this
      case Number(_, width) => ANumber(width)
      case Flag(_) => AFlag
      case Text(_) => AText
      case Many(all, each) => AMany(|all|, each)
    }
  }

  /** What a reader expects next. */
  datatype Shape = ANumber(width: nat) | AFlag | AText | AMany(count: nat, each: nat) {
    predicate Fits() {
      match this
      case ANumber(width) => 0 < width <= 8
      case AMany(count, each) => 0 < each <= 8
      case _ => true
    }
  }

  // ---- The bytes of each item ----

  /** Byte k of a number. */
  function ByteAt(value: nat, k: nat): byte {
    value / Pow256(k) % 256
  }

  /** Byte k of number i of an array is where the numbers before it end, and k bytes on. */
  ghost predicate NumberOnWire(all: seq<nat>, each: nat, b: seq<byte>, i: nat, k: nat) {
    i < |all| && k < each ==> i * each + k < |b| && b[i * each + k] == ByteAt(all[i], k)
  }

  /** The bytes an item is written as. */
  ghost predicate OnWire(item: Item, b: seq<byte>) {
    match item
    case Number(value, width) =>
      |b| == width && forall k {:trigger b[k]} :: 0 <= k < width ==> b[k] == ByteAt(value, k)
    case Flag(on) =>
      b == [if on then 1 else 0]
    case Text(chars) =>
      && |b| == 4 + |chars| && b[4..] == chars
      && b[0] == |chars| % 0x100 && b[1] == |chars| / 0x100 % 0x100
      && b[2] == |chars| / 0x1_0000 % 0x100 && b[3] == |chars| / 0x100_0000 % 0x100
    case Many(all, each) =>
      && |b| == Product(|all|, each)
      && forall i: nat, k: nat {:trigger NumberOnWire(all, each, b, i, k)} :: NumberOnWire(all, each, b, i, k)
  }

  lemma AddedIs(was: seq<byte>, b: seq<byte>)
    ensures |was| <= |was + b| && (was + b)[|was|..] == b
  {
  }

  lemma ItemOnWire(item: Item)
    requires item.Fits()
    ensures OnWire(item, item.Bytes())
  {
    hide Little, LittleAll, Pow256, ByteAt;
    match item
    case Number(value, width) =>
      forall k | 0 <= k < width ensures Little(value, width)[k] == ByteAt(value, k) { LittleAt(value, width, k); }
    case Flag(on) => OneByte(if on then 1 else 0);
    case Text(chars) => FourBytesOf(|chars|);
    case Many(all, each) => ManyOnWire(all, each);
  }

  lemma ManyOnWire(all: seq<nat>, each: nat)
    ensures OnWire(Many(all, each), LittleAll(all, each))
  {
    hide Little, LittleAll, NumberOnWire;
    var b := LittleAll(all, each);
    forall i: nat, k: nat ensures NumberOnWire(all, each, b, i, k) { OneOnWire(all, each, i, k); }
  }

  lemma OneOnWire(all: seq<nat>, each: nat, i: nat, k: nat)
    ensures NumberOnWire(all, each, LittleAll(all, each), i, k)
  {
    hide Little, LittleAll;
    if i < |all| && k < each { LittleAllAt(all, each, i, k); }
  }

  lemma LittleAllSize(all: seq<nat>, each: nat)
    ensures |LittleAll(all, each)| == Product(|all|, each)
  {
  }

  lemma OneByte(value: nat)
    requires value < 256
    ensures Little(value, 1) == [value]
  {
    assert Little(value / 256, 0) == [];
  }

  lemma FourBytesOf(n: nat)
    ensures Little(n, 4) == [n % 0x100, n / 0x100 % 0x100, n / 0x1_0000 % 0x100, n / 0x100_0000 % 0x100]
  {
    LittleHead(n, 4);
    LittleHead(n / 0x100, 3);
    LittleHead(n / 0x100 / 0x100, 2);
    LittleHead(n / 0x100 / 0x100 / 0x100, 1);
    assert Little(n / 0x100 / 0x100 / 0x100 / 0x100, 0) == [];
    hide Little;
    assert n / 0x100 / 0x100 == n / 0x1_0000 && n / 0x1_0000 / 0x100 == n / 0x100_0000;
  }

  lemma {:induction false} LittleAt(value: nat, width: nat, k: nat)
    requires k < width
    ensures Little(value, width)[k] == ByteAt(value, k)
  {
    LittleHead(value, width);
    if k > 0 {
      LittleAt(value / 256, width - 1, k - 1);
      DividedOn(value, k);
    }
  }

  lemma DividedOn(value: nat, k: nat)
    requires k > 0
    ensures ByteAt(value, k) == ByteAt(value / 256, k - 1)
  {
    Divided(value, 256, Pow256(k - 1));
  }

  lemma Divided(x: nat, a: nat, b: nat)
    requires a > 0 && b > 0
    ensures a * b > 0 && x / (a * b) == x / a / b
  {
    var y := x / a;
    var q := y / b;
    QuotientBounds(x, a);
    QuotientBounds(y, b);
    Scaled(a, q * b, y);
    Scaled(a, y + 1, (q + 1) * b);
    Regroup(a, q, b);
    Regroup(a, q + 1, b);
    SomeProduct(a, b);
    QuotientIs(x, a * b, q);
  }

  lemma QuotientBounds(x: nat, a: nat)
    requires a > 0
    ensures a * (x / a) <= x < a * (x / a + 1) && x / a * a <= x < (x / a + 1) * a
  {
  }

  lemma Scaled(a: nat, x: nat, y: nat)
    requires x <= y
    ensures a * x <= a * y
  {
  }

  lemma Regroup(a: nat, q: nat, b: nat)
    ensures a * (q * b) == q * (a * b)
  {
  }

  lemma SomeProduct(a: nat, b: nat)
    requires a > 0 && b > 0
    ensures a * b > 0
  {
  }

  lemma QuotientIs(x: nat, d: nat, q: nat)
    requires d > 0 && q * d <= x < (q + 1) * d
    ensures x / d == q
  {
    var r := x / d;
    QuotientBounds(x, d);
    if r < q { Scaled(d, r + 1, q); }
  }

  lemma {:induction false} LittleAllAt(values: seq<nat>, width: nat, i: nat, k: nat)
    requires i < |values| && k < width
    ensures Product(i, width) + k < |LittleAll(values, width)|
    ensures LittleAll(values, width)[Product(i, width) + k] == ByteAt(values[i], k)
    decreases |values|
  {
    hide Pow256, Little, LittleAll, ByteAt, Product;
    var n := |values| - 1;
    LastLittle(values, width);
    LittleAllSize(values[..n], width);
    if i == n {
      LittleAt(values[n], width, k);
    } else {
      LittleAllAt(values[..n], width, i, k);
    }
  }

  function BytesOf(items: seq<Item>): seq<byte> {
    if items == [] then [] else items[0].Bytes() + BytesOf(items[1..])
  }

  /** Numbers of `each` bytes, from their bytes. */
  function NumbersIn(b: seq<byte>, each: nat, count: nat): (r: seq<nat>)
    requires count * each <= |b|
    ensures |r| == count
  {
    if count == 0 then []
    else
      OneMoreIn(count, each, |b|);
      NumbersIn(b, each, count - 1) + [NumberOf(b[(count - 1) * each..(count - 1) * each + each])]
  }

  lemma OneMoreIn(count: nat, each: nat, n: nat)
    requires count > 0 && count * each <= n
    ensures (count - 1) * each + each == count * each && (count - 1) * each <= n
  {
  }

  /** The string at the start of some bytes. */
  function StringAt(b: seq<byte>): (r: Option<seq<byte>>)
    ensures r.Some? ==> 4 + |r.value| <= |b|
  {
    if |b| < 4 || NumberOf(b[..4]) > |b| - 4 then None else Some(b[4..4 + NumberOf(b[..4])])
  }

  /** The item at the start of some bytes, and how many it takes. */
  function Parse(shape: Shape, b: seq<byte>): (r: Option<(Item, nat)>)
    ensures r.Some? ==> r.value.1 <= |b|
  {
    match shape
    case ANumber(width) =>
      if |b| < width then None else Some((Number(NumberOf(b[..width]), width), width))
    case AFlag => if |b| < 1 then None else Some((Flag(b[0] != 0), 1))
    case AText =>
      var text := StringAt(b);
      if text.None? then None else Some((Text(text.value), 4 + |text.value|))
    case AMany(count, each) =>
      if count * each >= SIZE_LIMIT || |b| < count * each then None
      else Some((Many(NumbersIn(b, each, count), each), count * each))
  }

  function ParseAll(shapes: seq<Shape>, b: seq<byte>): Option<seq<Item>> {
    if shapes == [] then Some([])
    else
      var first := Parse(shapes[0], b);
      if first.None? then None
      else
        var rest := ParseAll(shapes[1..], b[first.value.1..]);
        if rest.None? then None else Some([first.value.0] + rest.value)
  }

  lemma {:induction false} NumbersOfLittle(all: seq<nat>, each: nat, rest: seq<byte>)
    requires forall i {:trigger all[i]} :: 0 <= i < |all| ==> all[i] < Pow256(each)
    ensures NumbersIn(LittleAll(all, each) + rest, each, |all|) == all
    decreases |all|
  {
    hide Little, NumberOf, LittleAll, NumbersIn, Pow256;
    if all == [] {
      NoNumbers(LittleAll(all, each) + rest, each);
    } else {
      var n := |all| - 1;
      LastNumber(all, each, rest);
      NumbersOfLittle(all[..n], each, Little(all[n], each) + rest);
      LittleNumber(all[n], each);
      assert all == all[..n] + [all[n]];
    }
  }

  lemma NoNumbers(b: seq<byte>, each: nat)
    ensures NumbersIn(b, each, 0) == []
  {
  }

  /** The last number of an array is read from its last bytes, and the others before that. */
  lemma LastNumber(all: seq<nat>, each: nat, rest: seq<byte>)
    requires all != []
    ensures var n := |all| - 1; var b := LittleAll(all, each) + rest;
      && b == LittleAll(all[..n], each) + (Little(all[n], each) + rest) && n * each <= |b| && |all| * each <= |b|
      && NumbersIn(b, each, |all|) == NumbersIn(b, each, n) + [NumberOf(Little(all[n], each))]
  {
    hide Little, NumberOf, LittleAll, NumbersIn;
    var n, b := |all| - 1, LittleAll(all, each) + rest;
    LastLittle(all, each);
    var before, last := LittleAll(all[..n], each), Little(all[n], each);
    assert b == before + (last + rest);
    LastIn(b, each, |all|);
    MiddleOf(before, last, rest);
  }

  lemma LastLittle(all: seq<nat>, each: nat)
    requires all != []
    ensures LittleAll(all, each) == LittleAll(all[..|all| - 1], each) + Little(all[|all| - 1], each)
  {
    hide Little;
  }

  lemma LastIn(b: seq<byte>, each: nat, count: nat)
    requires count > 0 && count * each <= |b|
    ensures var at := (count - 1) * each;
      && 0 <= at && at + each == count * each
      && NumbersIn(b, each, count) == NumbersIn(b, each, count - 1) + [NumberOf(b[at..at + each])]
  {
    hide NumberOf;
    OneMoreIn(count, each, |b|);
  }

  lemma MiddleOf(a: seq<byte>, x: seq<byte>, r: seq<byte>)
    ensures (a + (x + r))[|a|..|a| + |x|] == x
  {
  }

  /** An item that was written is read back, whatever follows it. */
  lemma ItemIsReadBack(item: Item, rest: seq<byte>)
    requires item.Fits()
    ensures Parse(item.ShapeOf(), item.Bytes() + rest) == Some((item, |item.Bytes()|))
  {
    var b := item.Bytes() + rest;
    match item {
      case Number(value, width) =>
        LittleNumber(value, width);
        assert b[..width] == Little(value, width);
      case Flag(on) =>
        assert b[0] == if on then 1 else 0;
      case Text(chars) =>
        FourBytes();
        LittleNumber(|chars|, 4);
        assert b[..4] == Little(|chars|, 4);
        assert b[4..4 + |chars|] == chars;
      case Many(all, each) =>
        NumbersOfLittle(all, each, rest);
    }
  }

  lemma FourBytes()
    ensures Pow256(4) == WORD_LIMIT
  {
    assert Pow256(1) == 256 && Pow256(2) == 256 * 256 && Pow256(3) == 256 * 256 * 256;
  }

  ghost predicate AllFit(items: seq<Item>) {
    forall i {:trigger items[i]} :: 0 <= i < |items| ==> items[i].Fits()
  }

  function Shapes(items: seq<Item>): (r: seq<Shape>)
    ensures |r| == |items|
  {
    seq(|items|, i requires 0 <= i < |items| => items[i].ShapeOf())
  }

  lemma ShapesOn(items: seq<Item>)
    requires items != []
    ensures Shapes(items)[0] == items[0].ShapeOf() && Shapes(items)[1..] == Shapes(items[1..])
  {
  }

  /** Any list of items that was written is read back, whatever follows it. */
  lemma {:induction false} ItemsAreReadBack(items: seq<Item>, rest: seq<byte>)
    requires AllFit(items)
    ensures ParseAll(Shapes(items), BytesOf(items) + rest) == Some(items)
    decreases |items|
  {
    hide Parse, ParseAll, Shapes, BytesOf, Item.Bytes, Item.Fits, Item.ShapeOf;
    if items == [] {
      NothingParsed(BytesOf(items) + rest);
      assert Shapes(items) == [];
    } else {
      var first, tail := items[0].Bytes(), BytesOf(items[1..]) + rest;
      FirstBytes(items, rest);
      ItemIsReadBack(items[0], tail);
      ShapesOn(items);
      ParseOn(Shapes(items), first + tail, items[0], |first|);
      assert (first + tail)[|first|..] == tail;
      ItemsAreReadBack(items[1..], rest);
      assert [items[0]] + items[1..] == items;
    }
  }

  lemma NothingParsed(b: seq<byte>)
    ensures ParseAll([], b) == Some([])
  {
  }

  lemma FirstBytes(items: seq<Item>, rest: seq<byte>)
    requires items != []
    ensures BytesOf(items) + rest == items[0].Bytes() + (BytesOf(items[1..]) + rest)
    ensures BytesOf(items) == items[0].Bytes() + BytesOf(items[1..])
  {
    hide Item.Bytes;
  }

  /** Parsing goes on after the first item. */
  lemma ParseOn(shapes: seq<Shape>, b: seq<byte>, item: Item, n: nat)
    requires shapes != [] && Parse(shapes[0], b) == Some((item, n))
    ensures n <= |b|
    ensures var rest := ParseAll(shapes[1..], b[n..]);
      ParseAll(shapes, b) == if rest.None? then None else Some([item] + rest.value)
  {
    hide Parse;
  }

  /** An item that is cut short is not read. */
  lemma CutItemIsRefused(item: Item, k: nat)
    requires item.Fits() && k < |item.Bytes()|
    ensures Parse(item.ShapeOf(), item.Bytes()[..k]).None?
  {
    var b := item.Bytes();
    if item.Text? && k >= 4 {
      FourBytes();
      LittleNumber(|item.chars|, 4);
      assert b[..k][..4] == Little(|item.chars|, 4);
    }
  }

  /** A list of items that is cut short anywhere is not read. */
  lemma {:induction false} CutItemsAreRefused(items: seq<Item>, k: nat)
    requires AllFit(items) && k < |BytesOf(items)|
    ensures ParseAll(Shapes(items), BytesOf(items)[..k]).None?
    decreases |items|
  {
    hide Parse, ParseAll, Shapes, BytesOf, Item.Bytes, Item.Fits, Item.ShapeOf;
    NoBytes();
    var first, b := items[0].Bytes(), BytesOf(items);
    FirstBytes(items, []);
    ShapesOn(items);
    if k < |first| {
      CutItemIsRefused(items[0], k);
      assert b[..k] == first[..k];
      ParseStops(Shapes(items), b[..k]);
    } else {
      var rest := BytesOf(items[1..])[..k - |first|];
      assert b[..k] == first + rest;
      ItemIsReadBack(items[0], rest);
      ParseOn(Shapes(items), first + rest, items[0], |first|);
      assert (first + rest)[|first|..] == rest;
      CutItemsAreRefused(items[1..], k - |first|);
    }
  }

  lemma NoBytes()
    ensures BytesOf([]) == []
  {
  }

  lemma ParseStops(shapes: seq<Shape>, b: seq<byte>)
    requires shapes != [] && Parse(shapes[0], b).None?
    ensures ParseAll(shapes, b).None?
  {
    hide Parse;
  }

  lemma ItemFits(items: seq<Item>, n: nat)
    requires AllFit(items) && n < |items|
    ensures items[n].Fits()
  {
  }

  lemma FirstNone(items: seq<Item>)
    ensures BytesOf(items[..0]) == [] && items[0..] == items
  {
  }

  lemma {:induction false} BytesOfJoined(a: seq<Item>, b: seq<Item>)
    ensures BytesOf(a + b) == BytesOf(a) + BytesOf(b)
  {
    hide Item.Bytes, BytesOf;
    if a == [] {
      NoBytes();
      assert a + b == b;
    } else {
      BytesOfJoined(a[1..], b);
      FirstBytes(a, []);
      FirstBytes(a + b, []);
      assert (a + b)[1..] == a[1..] + b;
      Grouped(a[0].Bytes(), BytesOf(a[1..]), BytesOf(b));
    }
  }

  lemma Grouped(a: seq<byte>, b: seq<byte>, c: seq<byte>)
    ensures a + b + c == a + (b + c)
  {
  }

  lemma NextBytes(items: seq<Item>, n: nat)
    requires n < |items|
    ensures BytesOf(items[..n + 1]) == BytesOf(items[..n]) + items[n].Bytes()
    ensures BytesOf(items[n..]) == items[n].Bytes() + BytesOf(items[n + 1..])
  {
    hide Item.Bytes, BytesOf;
    assert items[..n + 1] == items[..n] + [items[n]];
    assert items[n..] == [items[n]] + items[n + 1..];
    BytesOfJoined(items[..n], [items[n]]);
    BytesOfJoined([items[n]], items[n + 1..]);
    FirstBytes([items[n]], []);
    assert [items[n]][1..] == [];
    NoBytes();
  }

  // ---- Reading ----

  class RosReader {
    const data: seq<byte>
    const littleEndian: bool
    var position: nat

    ghost predicate Valid()
      reads this
    {
      position <= |data|
    }

    constructor (data: seq<byte>, littleEndian: bool)
      ensures Valid() && this.data == data && position == 0
    {
      this.data, this.littleEndian, this.position := data, littleEndian, 0;
    }

    function Remaining(): nat
      requires Valid()
      reads this
    {
      |data| - position
    }

    /** The number at `at`, put together byte by byte; as the bits above a byte's are still 0, adding is or-ing. */
    method Decode(at: nat, width: nat) returns (bits: nat)
      requires at + width <= |data|
      ensures bits == NumberOf(data[at..at + width])
    {
      bits := 0;
      for i := 0 to width
        invariant bits == NumberOf(data[at..at + i])
      {
        NumberOn(data[at..at + i], data[at + i]);
        assert data[at..at + i] + [data[at + i]] == data[at..at + i + 1];
        bits := bits + data[at + i] * Pow256(i);
      }
    }

    method Read(width: nat) returns (value: Option<nat>)
      requires Valid() && 0 < width <= 8
      modifies this
      ensures Valid() && position == old(position) + if value.Some? then width else 0
      ensures value == if old(Remaining()) < width then None
        else Some(NumberOf(data[old(position)..old(position) + width]))
    {
      if Remaining() < width {
        return None;
      }
      var bits := Decode(position, width);
      position := position + width;
      value := Some(bits);
    }

    method ReadFlag() returns (value: Option<bool>)
      requires Valid()
      modifies this
      ensures Valid() && position == old(position) + if value.Some? then 1 else 0
      ensures value == if old(Remaining()) < 1 then None else Some(data[old(position)] != 0)
    {
      if Remaining() < 1 {
        return None;
      }
      value := Some(data[position] != 0);
      position := position + 1;
    }

    /** The bytes of a string.  If they run past the end its length has been read all the same. */
    method ReadString() returns (value: Option<seq<byte>>)
      requires Valid()
      modifies this
      ensures Valid() && value == StringAt(data[old(position)..])
      ensures position == old(position) +
        if value.Some? then 4 + |value.value| else if old(Remaining()) < 4 then 0 else 4
    {
      ghost var b := data[position..];
      var length := Read(4);
      if length.None? {
        return None;
      }
      assert data[position - 4..position] == b[..4];
      if length.value > Remaining() {
        return None;
      }
      assert b[4..4 + length.value] == data[position..position + length.value];
      value := Some(data[position..position + length.value]);
      position := position + length.value;
    }

    method ReadRaw(length: nat) returns (value: Option<seq<byte>>)
      requires Valid()
      modifies this
      ensures Valid() && position == old(position) + if value.Some? then length else 0
      ensures value == if length > old(Remaining()) then None else Some(data[old(position)..old(position) + length])
    {
      if length > Remaining() {
        return None;
      }
      value := Some(data[position..position + length]);
      position := position + length;
    }

    /** All numbers of an array, or none. */
    method ReadArray(count: nat, each: nat) returns (values: Option<seq<nat>>)
      requires Valid() && 0 < each <= 8 && |data| < SIZE_LIMIT
      modifies this
      ensures Valid() && position == old(position) + if values.Some? then count * each else 0
      ensures values == if count * each > old(Remaining()) then None
        else Some(NumbersIn(data[old(position)..], each, count))
    {
      CountLimit(count, each);
      if count > (SIZE_LIMIT - 1) / each {
        return None;
      }
      if Remaining() < count * each {
        return None;
      }
      if littleEndian {
        values := Some(NumbersIn(data[position..], each, count));
        position := position + count * each;
      } else {
        values := ReadEach(count, each);
      }
    }

    method ReadEach(count: nat, each: nat) returns (values: Option<seq<nat>>)
      requires Valid() && 0 < each <= 8 && count * each <= Remaining()
      modifies this
      ensures Valid() && position == old(position) + count * each
      ensures values == Some(NumbersIn(data[old(position)..], each, count))
    {
      hide NumberOf, NumbersIn;
      ghost var b := data[position..];
      var all: seq<nat>, i := [], 0;
      NoNumbers(b, each);
      while i < count
        invariant i <= count && Valid() && i * each <= count * each && position == old(position) + i * each
        invariant all == NumbersIn(b, each, i)
      {
        NextIn(b, each, i, count);
        var value := Read(each);
        assert data[position - each..position] == b[i * each..i * each + each];
        all := all + [value.value];
        i := i + 1;
      }
      values := Some(all);
    }

    method ReadItem(shape: Shape) returns (item: Option<Item>)
      requires Valid() && shape.Fits() && |data| < SIZE_LIMIT
      modifies this
      ensures Valid() && (item.Some? <==> Parse(shape, data[old(position)..]).Some?)
      ensures item.Some? ==>
        Parse(shape, data[old(position)..]) == Some((item.value, position - old(position)))
    {
      hide NumberOf, NumbersIn;
      ghost var b := data[position..];
      match shape
      case ANumber(width) =>
        var value := Read(width);
        assert value.Some? ==> data[position - width..position] == b[..width];
        item := if value.None? then None else Some(Number(value.value, width));
      case AFlag =>
        var value := ReadFlag();
        item := if value.None? then None else Some(Flag(value.value));
      case AText =>
        var value := ReadString();
        item := if value.None? then None else Some(Text(value.value));
      case AMany(count, each) =>
        var values := ReadArray(count, each);
        item := if values.None? then None else Some(Many(values.value, each));
    }

    /** Reads items up to the first that is not all there. */
    method ReadItems(shapes: seq<Shape>) returns (items: Option<seq<Item>>)
      requires Valid() && |data| < SIZE_LIMIT && forall i {:trigger shapes[i]} :: 0 <= i < |shapes| ==> shapes[i].Fits()
      modifies this
      ensures Valid() && items == ParseAll(shapes, data[old(position)..])
    {
      hide Parse;
      var all: seq<Item>, i := [], 0;
      ghost var b := data[position..];
      NothingParsed(data[position..]);
      assert shapes[0..] == shapes;
      JoinedNone(ParseAll(shapes, b));
      while i < |shapes|
        invariant i <= |shapes| && Valid()
        invariant ParseAll(shapes, b) == Joined(all, ParseAll(shapes[i..], data[position..]))
      {
        ghost var at := position;
        var item := ReadItem(shapes[i]);
        assert shapes[i..][1..] == shapes[i + 1..];
        if item.None? {
          ParseStops(shapes[i..], data[at..]);
          return None;
        }
        ParseOn(shapes[i..], data[at..], item.value, position - at);
        assert data[at..][position - at..] == data[position..];
        JoinedOn(all, item.value, ParseAll(shapes[i + 1..], data[position..]));
        all := all + [item.value];
        i := i + 1;
      }
      NothingParsed(data[position..]);
      assert shapes[i..] == [] && all + [] == all;
      items := Some(all);
    }
  }

  /** Items followed by those that are still to be read, if they can be. */
  function Joined(all: seq<Item>, rest: Option<seq<Item>>): Option<seq<Item>> {
    if rest.None? then None else Some(all + rest.value)
  }

  lemma JoinedNone(rest: Option<seq<Item>>)
    ensures Joined([], rest) == rest
  {
    if rest.Some? { assert [] + rest.value == rest.value; }
  }

  lemma JoinedOn(all: seq<Item>, item: Item, rest: Option<seq<Item>>)
    ensures Joined(all, if rest.None? then None else Some([item] + rest.value)) == Joined(all + [item], rest)
  {
    if rest.Some? { assert all + ([item] + rest.value) == all + [item] + rest.value; }
  }

  lemma NextIn(b: seq<byte>, each: nat, i: nat, count: nat)
    requires i < count && count * each <= |b|
    ensures i * each + each == (i + 1) * each <= count * each
    ensures NumbersIn(b, each, i + 1) == NumbersIn(b, each, i) + [NumberOf(b[i * each..i * each + each])]
  {
    hide NumberOf, NumbersIn;
    UpTo(i + 1, count, each);
    LastIn(b, each, i + 1);
  }

  lemma UpTo(i: nat, count: nat, each: nat)
    requires i <= count
    ensures i * each <= count * each
  {
  }
}
