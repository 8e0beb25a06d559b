/**
Strings: a header word in a message holds the offset of a block with the string's length and bytes.  Setting a
string stores the bytes its source held on entry, wherever the source is.
*/
module StringFields {
  import opened Bytes
  import opened Layouts
  import opened HeapSpec
  import opened HeapLaws
  import opened HeapMemory
  import opened PayloadBuffers
  import opened AllocatedBlocks

  /** What a string is set to: bytes outside the buffer, or n bytes at an offset in it. */
  datatype Source = Outside(data: seq<byte>) | Inside(offset: nat, n: nat) {
    function Length(): nat {
      if Outside? then |data| else n
    }

    /** The source's bytes when the buffer holds m. */
    function In(m: seq<byte>): (r: seq<byte>)
      ensures Outside? || offset + n <= |m| ==> |r| == Length()
    {
      if Outside? then data else Slice(m, offset, n)
    }
  }

  // ---- Copying short strings ----

  /** d with the n bytes of s from `from` on stored at the same places. */
  function Piece(d: seq<byte>, s: seq<byte>, from: nat, n: nat): seq<byte>
    requires |d| == |s| && from + n <= |s|
  {
    d[..from] + s[from..from + n] + d[from + n..]
  }

  /**
  Copies a string in pieces, which overlap unless its length is a power of two, without looking at the bytes
  in between.  What was there does not matter.
  */
  method CopyString(d: seq<byte>, s: seq<byte>) returns (r: seq<byte>)
    requires |d| == |s|
    ensures r == s
  {
    var n := |s|;
    r := d;
    if n <= 16 {
      if n >= 8 {
        r := Piece(Piece(r, s, 0, 8), s, n - 8, 8);
      } else if n >= 4 {
        r := Piece(Piece(r, s, 0, 4), s, n - 4, 4);
      } else if n > 0 {
        r := r[0 := s[0]];
        r := r[n / 2 := s[n / 2]];
        r := r[n - 1 := s[n - 1]];
      }
    } else if n <= 32 {
      r := Piece(Piece(Piece(Piece(r, s, 0, 8), s, 8, 8), s, n - 16, 8), s, n - 8, 8);
    } else {
      r := s;
    }
  }

  // ---- A string in the buffer ----

  /** The string block at p, or no string if p is 0, with its length word. */
  ghost predicate HoldsString(m: seq<byte>, l: Layout, home: nat, header: nat, p: nat) {
    && |m| == l.full && Live(l, home) && home + HEADER <= header && header + 4 <= l.End(home) <= |m|
    && Get32(m, header) == p
    && (p != 0 ==> LiveAt(l, p) && p - HEADER != home && p + 4 <= |m| && Room(l, p, 4 + Get32(m, p)))
  }

  /** The bytes of the string at p. */
  function Text(m: seq<byte>, p: nat): seq<byte> {
    if p == 0 || p + 4 > |m| then [] else Slice(m, p + 4, Get32(m, p))
  }

  /** A string's block and its header word, which are its own, hold the bytes. */
  ghost predicate Holding(m: seq<byte>, p: nat, text: seq<byte>) {
    p != 0 && p + 4 + |text| <= |m| && Get32(m, p) == |text| && m[p + 4..p + 4 + |text|] == text
  }

  /** After what is at `but` was resized to q, or q was allocated, writing the string and its offset. */
  lemma StringWritten(m0: seq<byte>, m: seq<byte>, m1: seq<byte>, r: seq<byte>, head: nat, heads: seq<nat>, l: Layout,
        g: Layout,
                      home: nat, header: nat, but: int, q: nat, text: seq<byte>)
    requires l.Inv() && g.Inv() && Passed(m0, m, l, g, but) && Agrees(m, head, heads, g, NONE)
    requires Live(l, home) && home + HEADER <= header && header + 4 <= l.End(home) && but != home
    requires Room(g, q, 4 + |text|) && (but == q - HEADER || !LiveAt(l, q))
    requires OnlyIn(m, m1, q, q + 4 + |text|) && Holding(m1, q, text)
    requires OnlyIn(m1, r, header, header + 4) && header + 4 <= |r| && Get32(r, header) == q
    ensures Agrees(r, head, heads, g, NONE) && HoldsString(r, g, home, header, q) && Text(r, q) == text
    ensures Aside(m0, r, l, g, home, header, 4, but)
  {
    hide Layout.Tiled, Layout.Listed, Agrees, Passed;
    PassedBlock(m0, m, l, g, but, home);
    RoomInside(g, q, 4 + |text|);
    WriteAgrees(m, m1, head, heads, g, NONE, q - HEADER, q, q + 4 + |text|);
    WriteAgrees(m1, r, head, heads, g, NONE, home, header, header + 4);
    TilesApart(g, home, q - HEADER);
    WrittenAside(m0, m, m1, r, l, g, home, header, 4, but, q, q + 4 + |text|);
    SizeIs(r, g, head, heads);
  }

  /** A string none of whose blocks changed is as it was. */
  lemma StringPassed(m: seq<byte>, r: seq<byte>, l: Layout, g: Layout, home: nat, header: nat, p: nat)
    requires l.Inv() && Passed(m, r, l, g, -1) && HoldsString(m, l, home, header, p)
    ensures HoldsString(r, g, home, header, p) && Text(r, p) == Text(m, p) && Aside(m, r, l, g, home, header, 4, -1)
  {
    hide Layout.Tiled, Layout.Listed, Passed;
    PassedSizes(m, r, l, g, -1);
    PassedBlock(m, r, l, g, -1, home);
    if p != 0 {
      PassedRoom(m, r, l, g, -1, p, 4 + Get32(m, p));
      RoomInside(l, p, 4 + Get32(m, p));
    }
    PassedAside(m, r, l, g, home, header, 4);
  }

  /** The source's bytes stay where they are when other blocks are allocated, resized or moved. */
  ghost predicate Stable(l: Layout, s: Source, but: int) {
    s.Inside? ==> exists o: nat {:trigger Live(l, o)} ::
      Live(l, o) && o != but && o + HEADER <= s.offset
      && s.offset + s.n <= l.End(o)
  }

  lemma SourceStays(m: seq<byte>, r: seq<byte>, l: Layout, g: Layout, but: int, s: Source)
    requires l.Inv() && Passed(m, r, l, g, but) && Stable(l, s, but)
    ensures s.In(r) == s.In(m) && |s.In(m)| == s.Length() && (s.Inside? ==> s.offset + s.n <= |m| <= |r|)
  {
    if s.Inside? {
      var o: nat :| Live(l, o) && o != but && o + HEADER <= s.offset && s.offset + s.n <= l.End(o);
      PassedBlock(m, r, l, g, but, o);
    }
  }

  /** Setting a string whose block is at p, or which has none, to n bytes. */
  ghost function Setting(s: State, p: nat, n: nat, cfg: Config): Outcome
    requires s.Inv() && (p != 0 ==> LiveAt(s.l, p))
  {
    if n > WORD_LIMIT - 1 - 4 then Null(Fail(s))
    else if p == 0 then Allocation(s, n + 4, true, cfg, true)
    else Reallocation(s, p, n + 4, true, cfg)
  }

  /** A string is given a block of just its size, unless that is too long, when the buffer fails, or there is none. */
  lemma SettingIsExact(s: State, p: nat, n: nat, cfg: Config)
    requires s.Inv() && (p != 0 ==> LiveAt(s.l, p))
    ensures var r := Setting(s, p, n, cfg);
      if n + 4 >= 0x1_0000_0000 then
        r.Null? && Spent(r.s)
      else
        n + 4 <= 0xFFFF_FFF8 ==>
          (r.Block? ==> Exactly(r.s.l, r.p, n + 4)) && (r.Null? ==> OutOfMemory(s, r.s, cfg))
    ensures var r := Setting(s, p, n, cfg);
      !s.failed && n + 4 <= 0xFFFF_FFF8 ==>
        if p == 0 then Allotted(s, n + 4, true, cfg, r) else Routed(s, p, n + 4, true, cfg, r)
  {
    hide Layout.Tiled, Layout.Listed, Allocation, Reallocation, Allotted, Routed;
    if !s.failed && n + 4 <= 0xFFFF_FFF8 {
      AllocationAllots(s, n + 4, true, cfg);
      if p != 0 { ReallocationRoutes(s, p, n + 4, true, cfg); }
    }
    if n + 4 <= 0xFFFF_FFF8 {
      GivenExactly(s, n + 4, true, cfg);
      NoBlockNoMemory(s, n + 4, true, cfg);
      if p != 0 {
        ResizedExactly(s, p, n + 4, true, cfg);
        NotResizedNoMemory(s, p, n + 4, true, cfg);
      }
    }
  }

  /** The block that was got has room for the string unless rounding its size up wrapped; then it has none. */
  lemma SetRoomExactly(s: State, p: nat, n: nat, cfg: Config)
    requires s.Inv() && (p != 0 ==> LiveAt(s.l, p))
    ensures var r := Setting(s, p, n, cfg);
      r.Block? ==> LiveAt(r.s.l, r.p) && (Room(r.s.l, r.p, n + 4) <==> n + 4 <= MAX_REQUEST)
  {
    hide Layout.Tiled, Layout.Listed, Allocation, Reallocation, Align8;
    if n + 4 < WORD_LIMIT {
      if p == 0 {
        GivenRoomExactly(s, n + 4, true, cfg);
      } else {
        ResizedRoomExactly(s, p, n + 4, true, cfg);
      }
    }
  }

  class StringField {
    const pb: PayloadBuffer
    const header: nat
    ghost const home: nat

    /** The offset of the string, or 0. */
    function At(): nat
      requires header + 4 <= pb.mem.Length
      reads pb, pb.mem
    {
      pb.Load32(header)
    }

    ghost predicate Valid()
      reads pb, pb.mem
    {
      pb.Valid() && header + 4 <= pb.mem.Length && HoldsString(pb.mem[..], pb.layout, home, header, At())
    }

    /** The string's bytes. */
    ghost function Value(): seq<byte>
      requires Valid()
      reads pb, pb.mem
    {
      Text(pb.mem[..], At())
    }

    constructor (pb: PayloadBuffer, header: nat, ghost home: nat)
      requires pb.Valid() && Live(pb.layout, home) && home + HEADER <= header
      requires header + 4 <= pb.layout.End(home) <= pb.mem.Length
      requires pb.Load32(header) == 0
      ensures Valid() && Value() == [] && this.pb == pb && this.header == header && this.home == home
    {
      this.pb, this.header, this.home := pb, header, home;
    }

    /** The tile of the string's own block, or -1. */
    ghost function Own(): int
      requires header + 4 <= pb.mem.Length
      reads pb, pb.mem
    {
      if At() == 0 then -1 else At() - HEADER
    }

    /** The source is outside the buffer, in another allocated block of it, or in this string. */
    ghost predicate Readable(s: Source)
      requires Valid()
      reads pb, pb.mem
    {
      Stable(pb.layout, s, Own()) || (s.Inside? && At() != 0 && At() <= s.offset < At() + 4 + |Value()|
        && s.offset + s.n <= At() + 4 + |Value()|)
    }

    /** Every other block, and all of the message but this string's header, is as it was. */
    twostate predicate OthersKept()
      requires old(header + 4 <= pb.mem.Length)
      reads pb, pb.mem
    {
      && (pb.mem == old(pb.mem) || fresh(pb.mem)) && pb.message == old(pb.message) && pb.metadata == old(pb.metadata)
      && Aside(old(pb.mem[..]), pb.mem[..], old(pb.layout), pb.layout, home, header, 4, old(Own()))
    }

    /** Writes the length and the source's bytes into the block at q, and q into the header. */
    method Store(q: nat, s: Source, ghost but: int, ghost m0: seq<byte>, ghost l0: Layout, ghost text: seq<byte>)
      requires pb.Valid() && l0.Inv() && Passed(m0, pb.mem[..], l0, pb.layout, but) && 0 < q
      requires Live(l0, home) && home + HEADER <= header && header + 4 <= l0.End(home) && but != home
      requires Room(pb.layout, q, 4 + s.Length()) && (but == q - HEADER || !LiveAt(l0, q)) && s.Length() < WORD_LIMIT
      requires s.In(pb.mem[..]) == text && |text| == s.Length() && (s.Inside? ==> s.offset + s.n <= pb.mem.Length)
      modifies pb.mem
      ensures Valid() && At() == q && Value() == text && pb.St() == old(pb.St())
      ensures Aside(m0, pb.mem[..], l0, pb.layout, home, header, 4, but)
    {
      hide Layout.Tiled, Layout.Listed, Agrees, Passed, Aside, Room, Live;
      ghost var m := pb.mem[..];
      StoreFits(m, pb.freeList, pb.bitmaps, m0, l0, pb.layout, home, header, but, q, 4 + s.Length());
      SourceIs(m, s);
      StoreText(q, if s.Outside? then s.data else pb.mem[s.offset..s.offset + s.n]);
      ghost var m1 := pb.mem[..];
      pb.Store32(header, q);
      StringWritten(m0, m, m1, pb.mem[..], pb.freeList, pb.bitmaps, l0, pb.layout, home, header, but, q, text);
    }

    /** Writes the length and the bytes of a string. */
    method StoreText(q: nat, data: seq<byte>)
      requires 0 < q && q + 4 + |data| <= pb.mem.Length && |data| < WORD_LIMIT
      modifies pb.mem
      ensures OnlyIn(old(pb.mem[..]), pb.mem[..], q, q + 4 + |data|) && Holding(pb.mem[..], q, data)
    {
      pb.Store32(q, |data|);
      var copy := CopyString(pb.mem[q + 4..q + 4 + |data|], data);
      pb.StoreBytes(q + 4, copy);
      assert Get32(pb.mem[..], q) == |data|;
    }

    /** Marks an allocation of too many bytes as failed. */
    method TooLong()
      requires Valid()
      modifies pb, pb.mem
      ensures pb.St() == Fail(old(pb.St()))
      ensures Valid() && At() == old(At()) && Value() == old(Value()) && OthersKept()
    {
      hide Layout.Tiled, Layout.Listed, Agrees, Aside;
      ghost var s, m, p := pb.St(), pb.mem[..], At();
      FailPasses(s, m);
      pb.MarkAllocationFailed();
      StringPassed(m, pb.mem[..], s.l, pb.layout, home, header, p);
      AsideAnyway(m, pb.mem[..], s.l, pb.layout, home, header, 4, Own());
    }

    /** Sets a string that holds none yet.  0, leaving it so, if there is no space. */
    method NewString(s: Source) returns (p: nat, alive: bool)
      requires Valid() && At() == 0 && Readable(s) && !(MAX_REQUEST < s.Length() + 4 < WORD_LIMIT)
      modifies pb, pb.mem
      ensures alive ==> Valid() && At() == p && OthersKept()
      ensures Gives(Setting(old(pb.St()), old(At()), s.Length(), pb.config), p, alive, pb.St())
      ensures alive ==> Value() == if p != 0 then old(s.In(pb.mem[..])) else old(Value())
    {
      hide Layout.Tiled, Layout.Listed, Agrees, Aside, Passed, Allocation, Kept, Room;
      ghost var s0, m0 := pb.St(), pb.mem[..];
      if s.Length() > WORD_LIMIT - 1 - 4 {
        TooLong();
        return 0, true;
      }
      p, alive := pb.Allocate(s.Length() + 4, false, true);
      if !alive {
        return;
      }
      AllocationIsOk(s0, s.Length() + 4, true, pb.config, true);
      AllocationPasses(s0, s.Length() + 4, true, pb.config, p, pb.St(), m0, pb.mem[..]);
      if p == 0 {
        StringPassed(m0, pb.mem[..], s0.l, pb.layout, home, header, 0);
        return;
      }
      SourceStays(m0, pb.mem[..], s0.l, pb.layout, -1, s);
      Store(p, s, -1, m0, s0.l, s.In(m0));
    }

    /** Sets a string, whether it holds one or not.  0, leaving it as it is, if there is no space. */
    method SetString(s: Source) returns (p: nat, alive: bool)
      requires Valid() && Readable(s) && !(MAX_REQUEST < s.Length() + 4 < WORD_LIMIT)
      modifies pb, pb.mem
      ensures alive ==> Valid() && OthersKept()
      ensures Gives(Setting(old(pb.St()), old(At()), s.Length(), pb.config), p, alive, pb.St())
      ensures alive ==> Value() == if p != 0 then old(s.In(pb.mem[..])) else old(Value())
      ensures alive && p != 0 ==> At() == p
      decreases if s.Inside? then 1 else 0
    {
      hide Aside, Agrees, Layout.Tiled, Layout.Listed, Setting, Gives;
      if At() == 0 {
        p, alive := NewString(s);
      } else {
        p, alive := ReplaceString(s);
      }
    }

    /** Sets a string that holds one.  A source in the old string is copied first, as resizing can overwrite it. */
    method ReplaceString(s: Source) returns (p: nat, alive: bool)
      requires Valid() && At() != 0 && Readable(s) && !(MAX_REQUEST < s.Length() + 4 < WORD_LIMIT)
      modifies pb, pb.mem
      ensures alive ==> Valid() && OthersKept()
      ensures Gives(Setting(old(pb.St()), old(At()), s.Length(), pb.config), p, alive, pb.St())
      ensures alive ==> Value() == if p != 0 then old(s.In(pb.mem[..])) else old(Value())
      ensures alive && p != 0 ==> At() == p
      decreases if s.Inside? then 1 else 0, 0
    {
      hide Layout.Tiled, Layout.Listed, Agrees, Aside, Room, Stable, Allocation, Reallocation, Live;
      if s.Length() > WORD_LIMIT - 1 - 4 {
        TooLong();
        return 0, true;
      }
      var str := At();
      if s.Inside? && str <= s.offset < str + 4 + pb.Load32(str) {
        SourceInside(pb.mem[..], pb.layout, home, header, str, s);
        var copy := pb.mem[s.offset..s.offset + s.n];
        OutsideIsStable(pb.layout, copy, Own());
        p, alive := SetString(Outside(copy));
        return;
      }
      TextLength(pb.mem[..], pb.layout, home, header, str);
      p, alive := ResizeString(str, s);
    }

    /** Resizes the string's block and stores the source, which is not in it. */
    method ResizeString(str: nat, s: Source) returns (p: nat, alive: bool)
      requires Valid() && At() == str != 0 && Stable(pb.layout, s, str - HEADER) && s.Length() + 4 <= MAX_REQUEST
      modifies pb, pb.mem
      ensures alive ==> Valid() && OthersKept()
      ensures Gives(Setting(old(pb.St()), old(At()), s.Length(), pb.config), p, alive, pb.St())
      ensures alive ==> Value() == if p != 0 then old(s.In(pb.mem[..])) else old(Value())
      ensures alive && p != 0 ==> At() == p
    {
      hide Layout.Tiled, Layout.Listed, Agrees, Aside, Passed, Reallocation, Kept, Room, Brings, Stable, Gives;
      ghost var s0, m0 := pb.St(), pb.mem[..];
      StringBlock(m0, s0.l, home, header, str);
      p, alive := pb.Realloc(str, s.Length() + 4, false, true);
      if !alive {
        return;
      }
      BlockGiven(s0, pb.St(), true, false, pb.config, str, p, s.Length() + 4, m0, pb.mem[..]);
      if p == 0 {
        StringPassed(m0, pb.mem[..], s0.l, pb.layout, home, header, str);
        AsideAnyway(m0, pb.mem[..], s0.l, pb.layout, home, header, 4, str - HEADER);
        return;
      }
      SourceStays(m0, pb.mem[..], s0.l, pb.layout, str - HEADER, s);
      Store(p, s, str - HEADER, m0, s0.l, s.In(m0));
    }
  }

  lemma OutsideIsStable(l: Layout, data: seq<byte>, but: int)
    ensures Stable(l, Outside(data), but)
  {
  }

  lemma StringBlock(m: seq<byte>, l: Layout, home: nat, header: nat, p: nat)
    requires l.Inv() && HoldsString(m, l, home, header, p) && p != 0
    ensures LiveAt(l, p) && p < |m| && p - HEADER != home
  {
    RoomInside(l, p, 4 + Get32(m, p));
  }

  lemma TextLength(m: seq<byte>, l: Layout, home: nat, header: nat, p: nat)
    requires l.Inv() && HoldsString(m, l, home, header, p) && p != 0
    ensures |Text(m, p)| == Get32(m, p)
  {
    RoomInside(l, p, 4 + Get32(m, p));
  }

  lemma SourceIs(m: seq<byte>, s: Source)
    requires s.Inside? ==> s.offset + s.n <= |m|
    ensures s.In(m) == if s.Outside? then s.data else m[s.offset..s.offset + s.n]
  {
  }

  /** A readable source in the buffer is inside it. */
  lemma SourceInside(m: seq<byte>, l: Layout, home: nat, header: nat, p: nat, s: Source)
    requires l.Inv() && HoldsString(m, l, home, header, p) && p != 0 && s.Inside?
    requires Stable(l, s, p - HEADER) || s.offset + s.n <= p + 4 + |Text(m, p)|
    ensures s.offset + s.n <= |m|
  {
    RoomInside(l, p, 4 + Get32(m, p));
    if Stable(l, s, p - HEADER) {
      var o: nat :| Live(l, o) && o != p - HEADER && o + HEADER <= s.offset && s.offset + s.n <= l.End(o);
      assert l.TileOk(o);
    }
  }

  lemma StoreFits(m: seq<byte>, head: nat, heads: seq<nat>, m0: seq<byte>, l0: Layout, g: Layout, home: nat,
        header: nat, but: int, q: nat, n: nat)
    requires l0.Inv() && g.Inv() && Agrees(m, head, heads, g, NONE) && Passed(m0, m, l0, g, but) && but != home
    requires Live(l0, home) && home + HEADER <= header && header + 4 <= l0.End(home) && Room(g, q, n)
    ensures q + n <= |m| && header + 4 <= |m| && q < WORD_LIMIT
  {
    PassedBlock(m0, m, l0, g, but, home);
    RoomInside(g, q, n);
  }

  /** A string of another header, in other blocks, has its value. */
  lemma OtherStringStays(m: seq<byte>, r: seq<byte>, l: Layout, g: Layout, home: nat, header: nat, own: int, home2: nat,
        header2: nat, p2: nat)
    requires l.Inv() && Aside(m, r, l, g, home, header, 4, own) && HoldsString(m, l, home2, header2, p2)
    requires |r| == g.full
    requires home2 != own && (p2 != 0 ==> p2 - HEADER != own && p2 - HEADER != home)
    requires home2 == home ==> header2 + 4 <= header || header + 4 <= header2
    ensures HoldsString(r, g, home2, header2, p2) && Text(r, p2) == Text(m, p2)
  {
    assert AsideBlock(m, r, l, g, home, header, 4, own, home2);
    assert l.TileOk(home2);
    if p2 != 0 {
      RoomInside(l, p2, 4 + Get32(m, p2));
      assert AsideBlock(m, r, l, g, home, header, 4, own, p2 - HEADER);
    }
  }
}
