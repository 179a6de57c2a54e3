/** A cache seen as a partial map from byte addresses to bytes, and what each access
    does to that map. */
module CacheView {
  import opened Words
  import opened MemoryModel
  import opened InterconnectModel
  import opened CacheIndex
  import opened CacheOps

  /** No set holds a tag twice. */
  ghost predicate UniqueTags(ways: seq<Line>) {
    forall i, j | 0 <= i < j < |ways| :: ways[i].valid && ways[j].valid ==> ways[i].tag != ways[j].tag
  }

  ghost predicate Sound(c: Geometry, k: CacheState) {
    Shaped(c, k) && forall s | 0 <= s < |k.sets| :: UniqueTags(k.sets[s])
  }

  /** The resident copy of a byte, if its line is resident. */
  function Byte(c: Geometry, k: CacheState, a: uint64): Option<byte>
    requires Shaped(c, k) && InMemory(a)
  {
    LineOffsetIs(c, a);
    var w := Find(c, k, a);
    if w < 0 then None else Some(k.sets[SetIndex(c, a)][w].data[LineOffset(c, a)])
  }

  lemma FindUnique(ways: seq<Line>, tag: uint32, w: nat)
    requires UniqueTags(ways) && w < |ways| && Holds(ways[w], tag)
    ensures FindLine(ways, tag) == w
  {
  }

  /** Replacing a way by a line that is new to the set, or has the tag that way had. */
  lemma Replace(ways: seq<Line>, w: nat, line: Line, tag: uint32)
    requires UniqueTags(ways) && w < |ways| && line.valid
    requires Holds(ways[w], line.tag) || FindLine(ways, line.tag) < 0
    ensures var ways' := ways[w := line];
            && UniqueTags(ways')
            && FindLine(ways', tag) ==
                 if tag == line.tag then w else if Holds(ways[w], tag) then -1 else FindLine(ways, tag)
  {
    var ways' := ways[w := line];
    assert UniqueTags(ways') by {
      forall j | 0 <= j < |ways| && j != w && ways[j].valid
        ensures ways[j].tag != line.tag
      {
        if Holds(ways[w], line.tag) {
        } else {
          assert !Holds(ways[j], line.tag);
        }
      }
    }
    if tag == line.tag {
      FindUnique(ways', tag, w);
    } else {
      var f := FindLine(ways, tag);
      if f >= 0 && f != w {
        FindUnique(ways', tag, f);
      }
    }
  }

  lemma PutKeepsSound(c: Geometry, k: CacheState, s: nat, w: nat, line: Line)
    requires Sound(c, k) && s < NumSets(c) && w < c.ways && line.valid && |line.data| == c.lineSize
    requires Holds(k.sets[s][w], line.tag) || FindLine(k.sets[s], line.tag) < 0
    ensures Sound(c, PutLine(k, s, w, line))
  {
    Replace(k.sets[s], w, line, 0);
  }

  /** The view after putting a line into a way. */
  lemma PutView(c: Geometry, k: CacheState, s: nat, w: nat, line: Line, a: uint64)
    requires Sound(c, k) && s < NumSets(c) && w < c.ways && line.valid && |line.data| == c.lineSize
    requires Holds(k.sets[s][w], line.tag) || FindLine(k.sets[s], line.tag) < 0
    requires InMemory(a)
    ensures var k' := PutLine(k, s, w, line);
            && Sound(c, k')
            && Find(c, k', a) == (if SetIndex(c, a) != s then Find(c, k, a)
                                  else if Tag(c, a) == line.tag then w
                                  else if Holds(k.sets[s][w], Tag(c, a)) then -1
                                  else Find(c, k, a))
  {
    PutKeepsSound(c, k, s, w, line);
    if SetIndex(c, a) == s {
      Replace(k.sets[s], w, line, Tag(c, a));
    }
  }

  /** Stamping a line changes no byte. */
  lemma StampView(c: Geometry, k: CacheState, s: nat, w: nat, a: uint64)
    requires Sound(c, k) && s < NumSets(c) && w < c.ways && k.sets[s][w].valid && InMemory(a)
    ensures Sound(c, Stamp(k, s, w))
    ensures Byte(c, Stamp(k, s, w), a) == Byte(c, k, a)
  {
    var line := k.sets[s][w].(lru := Wrap32(k.hits + 1 + k.misses));
    PutView(c, k.(hits := k.hits + 1), s, w, line, a);
    if SetIndex(c, a) == s && Tag(c, a) == line.tag {
      FindUnique(k.sets[s], line.tag, w);
    }
  }

  /** Set and tag of memory addresses name their blocks. */
  lemma SameBlock(c: Geometry, a: uint64, b: uint64)
    requires InMemory(a) && InMemory(b)
    ensures Block(c, a) == Block(c, b) <==> SetIndex(c, a) == SetIndex(c, b) && Tag(c, a) == Tag(c, b)
  {
    CpuTagFits(c, a);
    CpuTagFits(c, b);
    SplitInjective(c, a, b);
  }

  /** The filled line holds memory's byte for every address of the block. */
  lemma FilledByte(c: Geometry, old_: Line, mem: seq<byte>, addr: uint64, a: uint64)
    requires |mem| == SIZE && InMemory(addr) && InMemory(a) && Block(c, a) == Block(c, addr)
    ensures LineOffset(c, a) < c.lineSize
    ensures Filled(c, old_, mem, addr).data[LineOffset(c, a)] == mem[Phys(a)]
  {
    LineOffsetIs(c, a);
    BlockInMemory(c, a);
    BlockInMemory(c, addr);
    LineAddressIs(c, a);
    LineAddressIs(c, addr);
  }

  lemma FillFinds(c: Geometry, k: CacheState, mem: seq<byte>, addr: uint64, w: nat, a: uint64)
    requires Sound(c, k) && |mem| == SIZE && InMemory(addr) && InMemory(a) && w < c.ways
    requires Find(c, k, addr) < 0
    ensures var s := SetIndex(c, addr);
            var k' := PutLine(k, s, w, Filled(c, k.sets[s][w], mem, addr));
            && Sound(c, k')
            && Find(c, k', a) == (if Block(c, a) == Block(c, addr) then w
                                  else if SetIndex(c, a) == s && Holds(k.sets[s][w], Tag(c, a)) then -1
                                  else Find(c, k, a))
  {
    var s := SetIndex(c, addr);
    FillTag(c, addr);
    PutView(c, k, s, w, Filled(c, k.sets[s][w], mem, addr), a);
    SameBlock(c, a, addr);
  }

  /** A fill makes the block resident with memory's bytes; any other block keeps its
      bytes or leaves. */
  lemma FillView(c: Geometry, k: CacheState, mem: seq<byte>, addr: uint64, w: nat, a: uint64)
    requires Sound(c, k) && |mem| == SIZE && InMemory(addr) && InMemory(a) && w < c.ways
    requires Find(c, k, addr) < 0
    ensures var s := SetIndex(c, addr);
            var k' := PutLine(k, s, w, Filled(c, k.sets[s][w], mem, addr));
            && Sound(c, k')
            && if Block(c, a) == Block(c, addr) then Byte(c, k', a) == Some(mem[Phys(a)])
               else Byte(c, k', a) == None || Byte(c, k', a) == Byte(c, k, a)
  {
    var s := SetIndex(c, addr);
    FillFinds(c, k, mem, addr, w, a);
    if Block(c, a) == Block(c, addr) {
      SameBlock(c, a, addr);
      FilledByte(c, k.sets[s][w], mem, addr, a);
    } else {
      var f := Find(c, k, a);
      if f >= 0 && SetIndex(c, a) == s && f == w {
        assert Holds(k.sets[s][w], Tag(c, a));
      }
    }
  }

  /** After a read: on a hit every byte is as before; on a miss the block holds memory's
      bytes and no other block gains or changes one. */
  lemma ReadView(c: Geometry, k: CacheState, mem: seq<byte>, addr: uint64, a: uint64)
    requires Sound(c, k) && |mem| == SIZE && InMemory(addr) && InMemory(a)
    ensures var k' := ReadStep(c, k, mem, addr).0;
            && Sound(c, k')
            && if Find(c, k, addr) >= 0 then Byte(c, k', a) == Byte(c, k, a)
               else if Block(c, a) == Block(c, addr) then Byte(c, k', a) == Some(mem[Phys(a)])
               else Byte(c, k', a) == None || Byte(c, k', a) == Byte(c, k, a)
  {
    var s, w := SetIndex(c, addr), Find(c, k, addr);
    if w >= 0 {
      StampView(c, k.(hits := k.hits + 1), s, w, a);
    } else {
      MissView(c, k, mem, addr, a);
    }
  }

  lemma MissView(c: Geometry, k: CacheState, mem: seq<byte>, addr: uint64, a: uint64)
    requires Sound(c, k) && |mem| == SIZE && InMemory(addr) && InMemory(a) && Find(c, k, addr) < 0
    ensures var k' := ReadStep(c, k, mem, addr).0;
            && Sound(c, k')
            && if Block(c, a) == Block(c, addr) then Byte(c, k', a) == Some(mem[Phys(a)])
               else Byte(c, k', a) == None || Byte(c, k', a) == Byte(c, k, a)
  {
    var s := SetIndex(c, addr);
    var v := VictimWay(k.sets[s]);
    var k0 := k.(misses := k.misses + 1);
    var k' := PutLine(k0, s, v, Filled(c, k.sets[s][v], mem, addr));
    FillView(c, k0, mem, addr, v, a);
    FillFinds(c, k0, mem, addr, v, addr);
    StampView(c, k', s, Find(c, k', addr), a);
  }

  /** A read returns the resident bytes of its line, after the fill if there was one. */
  lemma ReadReturns(c: Geometry, k: CacheState, mem: seq<byte>, addr: uint64, len: nat, i: nat)
    requires Sound(c, k) && |mem| == SIZE && InLine(c, addr, len) && i < len
    ensures InMemory(addr + i)
    ensures Byte(c, ReadStep(c, k, mem, addr).0, addr + i) == Some(ReadData(c, k, mem, addr, len)[i])
  {
    SameLine(c, addr, i);
    SameBlock(c, addr + i, addr);
    LineOffsetIs(c, addr);
    LineOffsetIs(c, addr + i);
    ReadFinds(c, k, mem, addr);
  }

  lemma ReadFinds(c: Geometry, k: CacheState, mem: seq<byte>, addr: uint64)
    requires Sound(c, k) && |mem| == SIZE && InMemory(addr)
    ensures var (k', w) := ReadStep(c, k, mem, addr);
            Sound(c, k') && Find(c, k', addr) == w
  {
    var s, w := SetIndex(c, addr), Find(c, k, addr);
    if w >= 0 {
      StampFinds(c, k.(hits := k.hits + 1), addr);
    } else {
      var v := VictimWay(k.sets[s]);
      var k0 := k.(misses := k.misses + 1);
      FillFinds(c, k0, mem, addr, v, addr);
      StampFinds(c, PutLine(k0, s, v, Filled(c, k.sets[s][v], mem, addr)), addr);
    }
  }

  lemma StampFinds(c: Geometry, k: CacheState, addr: uint64)
    requires Sound(c, k) && InMemory(addr) && Find(c, k, addr) >= 0
    ensures var s, w := SetIndex(c, addr), Find(c, k, addr);
            Sound(c, Stamp(k, s, w)) && Find(c, Stamp(k, s, w), addr) == w
  {
    var s, w := SetIndex(c, addr), Find(c, k, addr);
    PutView(c, k.(hits := k.hits + 1), s, w, k.sets[s][w].(lru := Wrap32(k.hits + 1 + k.misses)), addr);
  }

  /** After a write: a resident line takes the written bytes; nothing else changes. */
  lemma WriteView(c: Geometry, k: CacheState, addr: uint64, bytes: seq<byte>, a: uint64)
    requires Sound(c, k) && InLine(c, addr, |bytes|) && InMemory(a)
    ensures var k' := WriteStep(c, k, addr, bytes);
            && Sound(c, k')
            && Byte(c, k', a) ==
                 if addr <= a < addr + |bytes| && Byte(c, k, a).Some? then Some(bytes[a - addr]) else Byte(c, k, a)
  {
    if Find(c, k, addr) >= 0 {
      WriteHitView(c, k, addr, bytes, a);
    } else {
      WriteMissView(c, k, addr, bytes, a);
    }
  }

  lemma WriteHitView(c: Geometry, k: CacheState, addr: uint64, bytes: seq<byte>, a: uint64)
    requires Sound(c, k) && InLine(c, addr, |bytes|) && InMemory(a) && Find(c, k, addr) >= 0
    ensures var k' := WriteStep(c, k, addr, bytes);
            && Sound(c, k')
            && Byte(c, k', a) ==
                 if addr <= a < addr + |bytes| && Byte(c, k, a).Some? then Some(bytes[a - addr]) else Byte(c, k, a)
  {
    var s, w, k0 := SetIndex(c, addr), Find(c, k, addr), k.(hits := k.hits + 1);
    StampView(c, k0, s, w, a);
    StampFinds(c, k0, addr);
    LineOffsetIs(c, addr);
    WrittenLine(c, Stamp(k0, s, w), WriteStep(c, k, addr, bytes), addr, bytes, a, w);
  }

  lemma WrittenLine(c: Geometry, k: CacheState, k': CacheState, addr: uint64, bytes: seq<byte>,
                     a: uint64, w: nat)
    requires Sound(c, k) && InLine(c, addr, |bytes|) && InMemory(a) && Find(c, k, addr) == w
    requires LineOffset(c, addr) == addr % c.lineSize
    requires var s := SetIndex(c, addr);
             k' == PutLine(k, s, w, k.sets[s][w].(data := Splice(k.sets[s][w].data, LineOffset(c, addr), bytes)))
    ensures Sound(c, k')
    ensures Byte(c, k', a) ==
              if addr <= a < addr + |bytes| && Byte(c, k, a).Some? then Some(bytes[a - addr]) else Byte(c, k, a)
  {
    WriteLineView(c, k, addr, bytes, a);
  }

  lemma WriteMissView(c: Geometry, k: CacheState, addr: uint64, bytes: seq<byte>, a: uint64)
    requires Sound(c, k) && InLine(c, addr, |bytes|) && InMemory(a) && Find(c, k, addr) < 0
    ensures var k' := WriteStep(c, k, addr, bytes);
            Sound(c, k') && Byte(c, k', a) == Byte(c, k, a)
    ensures addr <= a < addr + |bytes| ==> Byte(c, k, a) == None
  {
    WrittenBlock(c, addr, |bytes|, a);
    SameBlock(c, a, addr);
  }

  /** A written byte lies in the line of the write; another byte of that line has another offset. */
  lemma WrittenBlock(c: Geometry, addr: uint64, len: nat, a: uint64)
    requires InLine(c, addr, len) && InMemory(a)
    ensures addr <= a < addr + len ==> Block(c, a) == Block(c, addr)
    ensures Block(c, a) == Block(c, addr) ==>
              a - addr == LineOffset(c, a) - LineOffset(c, addr)
  {
    LineOffsetIs(c, addr);
    LineOffsetIs(c, a);
    if addr <= a < addr + len {
      SameLine(c, addr, a - addr);
    }
    RoundDown(a, c.lineSize);
    RoundDown(addr, c.lineSize);
  }

  lemma WriteLineView(c: Geometry, k: CacheState, addr: uint64, bytes: seq<byte>, a: uint64)
    requires Sound(c, k) && InLine(c, addr, |bytes|) && InMemory(a) && Find(c, k, addr) >= 0
    requires LineOffset(c, addr) + |bytes| <= c.lineSize
    ensures var s, w := SetIndex(c, addr), Find(c, k, addr);
            var line := k.sets[s][w].(data := Splice(k.sets[s][w].data, LineOffset(c, addr), bytes));
            var k' := PutLine(k, s, w, line);
            && Sound(c, k')
            && Byte(c, k', a) ==
                 if addr <= a < addr + |bytes| && Byte(c, k, a).Some? then Some(bytes[a - addr]) else Byte(c, k, a)
  {
    var s, w := SetIndex(c, addr), Find(c, k, addr);
    var line := k.sets[s][w].(data := Splice(k.sets[s][w].data, LineOffset(c, addr), bytes));
    PutView(c, k, s, w, line, a);
    WrittenBlock(c, addr, |bytes|, a);
    SameBlock(c, a, addr);
    LineOffsetIs(c, a);
  }
}
