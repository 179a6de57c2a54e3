/** The DMA's copy loop as a function on memory: ascending words, each read before it is
    written (periph/dma/dma.cpp). */
module WordCopy {
  import opened Words
  import opened MemoryModel

  /** The rounds of `for (offset = 0; offset < size; offset += 4)`. */
  function WordCount(size: uint32): (n: nat)
    ensures size <= 4 * n < size + 4
  {
    (size + 3) / 4
  }

  /** Memory after k rounds of the transfer loop. */
  function CopyWords(mem: Ram, src: nat, dst: nat, k: nat): Ram
    requires src + 4 * k <= SIZE && dst + 4 * k <= SIZE
  {
    if k == 0 then mem else
      var m := CopyWords(mem, src, dst, k - 1);
      Splice(m, dst + 4 * (k - 1), Slice(m, src + 4 * (k - 1), 4))
  }

  lemma CopyStep(mem: Ram, src: nat, dst: nat, k: nat)
    requires src + 4 * k + 4 <= SIZE && dst + 4 * k + 4 <= SIZE
    ensures CopyWords(mem, src, dst, k + 1)
         == Splice(CopyWords(mem, src, dst, k), dst + 4 * k, Slice(CopyWords(mem, src, dst, k), src + 4 * k, 4))
  {
  }

  /** The byte at j after k rounds. */
  function ByteAfter(mem: Ram, src: nat, dst: nat, k: nat, j: nat): byte
    requires src + 4 * k <= SIZE && dst + 4 * k <= SIZE && j < SIZE
    decreases k
  {
    if k == 0 then mem[j]
    else if dst + 4 * k <= j + 4 < dst + 4 * k + 4 then ByteAfter(mem, src, dst, k - 1, src + j - dst)
    else ByteAfter(mem, src, dst, k - 1, j)
  }

  /** One round on any memory m whose byte at r is right, r being where the new byte at j is from. */
  lemma RoundByte(mem: Ram, src: nat, dst: nat, k: nat, j: nat, r: nat, m: Ram)
    requires k > 0 && src + 4 * k <= SIZE && dst + 4 * k <= SIZE && j < SIZE
    requires r == (if dst + 4 * k <= j + 4 < dst + 4 * k + 4 then src + j - dst else j) < SIZE
    requires m[r] == ByteAfter(mem, src, dst, k - 1, r)
    ensures Splice(m, dst + 4 * (k - 1), Slice(m, src + 4 * (k - 1), 4))[j] == ByteAfter(mem, src, dst, k, j)
  {
  }

  lemma {:induction false} ByteIs(mem: Ram, src: nat, dst: nat, k: nat, j: nat)
    requires src + 4 * k <= SIZE && dst + 4 * k <= SIZE && j < SIZE
    ensures CopyWords(mem, src, dst, k)[j] == ByteAfter(mem, src, dst, k, j)
    decreases k
  {
    if k > 0 {
      var r := if dst + 4 * k <= j + 4 < dst + 4 * k + 4 then src + j - dst else j;
      ByteIs(mem, src, dst, k - 1, r);
      RoundByte(mem, src, dst, k, j, r, CopyWords(mem, src, dst, k - 1));
    }
  }

  lemma {:induction false} KeptByte(mem: Ram, src: nat, dst: nat, k: nat, j: nat)
    requires src + 4 * k <= SIZE && dst + 4 * k <= SIZE && j < SIZE && !(dst <= j < dst + 4 * k)
    ensures ByteAfter(mem, src, dst, k, j) == mem[j]
    decreases k
  {
    if k > 0 {
      KeptByte(mem, src, dst, k - 1, j);
    }
  }

  /** Nothing but the destination changes. */
  lemma CopyFrame(mem: Ram, src: nat, dst: nat, k: nat, i: nat)
    requires src + 4 * k <= SIZE && dst + 4 * k <= SIZE && i < SIZE && !(dst <= i < dst + 4 * k)
    ensures CopyWords(mem, src, dst, k)[i] == mem[i]
  {
    ByteIs(mem, src, dst, k, i);
    KeptByte(mem, src, dst, k, i);
  }

  /** A byte j of the destination is the byte r of the source that its own round k read. */
  lemma {:induction false} WrittenByte(mem: Ram, src: nat, dst: nat, n: nat, k: nat, j: nat, r: nat)
    requires src + 4 * n <= SIZE && dst + 4 * n <= SIZE && k < n
    requires dst + r == src + j && src + 4 * k <= r < src + 4 * k + 4
    ensures ByteAfter(mem, src, dst, n, j) == ByteAfter(mem, src, dst, k, r)
    decreases n
  {
    if k + 1 < n {
      WrittenByte(mem, src, dst, n - 1, k, j, r);
    }
  }

  /** The destination holds what the source held. */
  ghost predicate CopiedRight(mem: Ram, src: nat, dst: nat, n: nat)
    requires src + 4 * n <= SIZE && dst + 4 * n <= SIZE
  {
    Slice(CopyWords(mem, src, dst, n), dst, 4 * n) == Slice(mem, src, 4 * n)
  }

  /** Every word is read before it may be overwritten. */
  predicate Ascends(src: nat, dst: nat, n: nat) {
    dst <= src || src + 4 * n <= dst
  }

  lemma AscendingByte(mem: Ram, src: nat, dst: nat, n: nat, j: nat, r: nat)
    requires src + 4 * n <= SIZE && dst + 4 * n <= SIZE && Ascends(src, dst, n)
    requires dst + r == src + j && src <= r < src + 4 * n
    ensures CopyWords(mem, src, dst, n)[j] == mem[r]
  {
    var k := (r - src) / 4;
    ByteIs(mem, src, dst, n, j);
    WrittenByte(mem, src, dst, n, k, j, r);
    KeptByte(mem, src, dst, k, r);
  }

  lemma AscendingCopies(mem: Ram, src: nat, dst: nat, n: nat)
    requires src + 4 * n <= SIZE && dst + 4 * n <= SIZE && Ascends(src, dst, n)
    ensures CopiedRight(mem, src, dst, n)
  {
    var m := Slice(CopyWords(mem, src, dst, n), dst, 4 * n);
    forall i | 0 <= i < 4 * n
      ensures m[i] == Slice(mem, src, 4 * n)[i]
    {
      AscendingByte(mem, src, dst, n, dst + i, src + i);
    }
  }

  // ---- Overlap from above ----

  /** The remainder by repeated subtraction. */
  function Fold(i: nat, d: nat): (r: nat)
    requires d > 0
    ensures r < d
  {
    if i < d then i else Fold(i - d, d)
  }

  lemma {:induction false} FoldIsMod(i: nat, d: nat)
    requires d > 0
    ensures Fold(i, d) == i % d
  {
    if i < d {
      ModSmall(i, d);
    } else {
      FoldIsMod(i - d, d);
      Regroup(d, 1, (i - d) / d + 1, 0);
      QuotientIs(i, d, (i - d) / d + 1, (i - d) % d);
    }
  }

  /** Byte j of memory, in the span from the source on, ends up with old byte o. */
  lemma {:induction false} OverlapByte(mem: Ram, src: nat, e: nat, n: nat, j: nat, o: nat)
    requires e >= 4 && src <= j < src + e + 4 * n <= SIZE && o == src + Fold(j - src, e)
    ensures ByteAfter(mem, src, src + e, n, j) == mem[o]
    decreases j
  {
    if j < src + e {
      KeptByte(mem, src, src + e, n, j);
    } else {
      var r := j - e;
      var k := (r - src) / 4;
      WrittenByte(mem, src, src + e, n, k, j, r);
      OverlapByte(mem, src, e, k, r, o);
    }
  }

  /** With the destination e >= 4 bytes above the source, byte j of the span from the source
      becomes old byte j mod e. */
  lemma OverlapRepeats(mem: Ram, src: nat, e: nat, n: nat, j: nat)
    requires e >= 4 && src + e + 4 * n <= SIZE && j < e + 4 * n
    ensures j % e < e
    ensures CopyWords(mem, src, src + e, n)[src + j] == mem[src + j % e]
  {
    FoldIsMod(j, e);
    var i, o := src + j, src + j % e;
    OverlapByte(mem, src, e, n, i, o);
    ByteIs(mem, src, src + e, n, i);
  }

  /** For a distance e below 4: where byte b of the k-th word comes from. The first e bytes of a
      word were overwritten by the round before. */
  function Origin(k: nat, b: nat, e: nat): (o: nat)
    requires b < 4 && 1 <= e <= 3
    ensures o <= 4 * k + b
    decreases k
  {
    if b >= e || k == 0 then 4 * k + b else Origin(k - 1, 4 + b - e, e)
  }

  /** What round k reads as its byte b, which is byte j of memory. */
  lemma {:induction false} ShortByte(mem: Ram, src: nat, e: nat, k: nat, b: nat, j: nat, o: nat)
    requires 1 <= e <= 3 && src + e + 4 * k <= SIZE && b < 4 && j == src + 4 * k + b < SIZE
    requires o == src + Origin(k, b, e)
    ensures ByteAfter(mem, src, src + e, k, j) == mem[o]
    decreases k
  {
    if b >= e || k == 0 {
      KeptByte(mem, src, src + e, k, j);
    } else {
      ShortByte(mem, src, e, k - 1, 4 + b - e, j - e, o);
    }
  }

  /** How often the byte was set back. */
  function Moves(k: nat, b: nat, e: nat): nat
    requires b < 4 && 1 <= e <= 3
  {
    var t := (3 - b) / (4 - e);
    if t <= k then t else k
  }

  lemma {:induction false} OriginIs(k: nat, b: nat, e: nat)
    requires b < 4 && 1 <= e <= 3
    ensures Origin(k, b, e) == 4 * k + b - e * Moves(k, b, e)
  {
    assert e == 1 || e == 2 || e == 3;
    if b < e && k > 0 {
      OriginIs(k - 1, 4 + b - e, e);
    }
  }

  lemma ShortAt(mem: Ram, src: nat, e: nat, n: nat, k: nat, b: nat, j: nat, o: nat)
    requires 1 <= e <= 3 && src + e + 4 * n <= SIZE && k < n && b < 4 && j == src + e + 4 * k + b
    requires o == src + Origin(k, b, e)
    ensures ByteAfter(mem, src, src + e, n, j) == mem[o]
  {
    WrittenByte(mem, src, src + e, n, k, j, j - e);
    ShortByte(mem, src, e, k, b, j - e, o);
  }

  lemma CopiedIs(mem: Ram, src: nat, dst: nat, n: nat, j: nat, x: byte)
    requires src + 4 * n <= SIZE && dst + 4 * n <= SIZE && j < SIZE && ByteAfter(mem, src, dst, n, j) == x
    ensures CopyWords(mem, src, dst, n)[j] == x
  {
    ByteIs(mem, src, dst, n, j);
  }

  /** With the destination e = 1, 2 or 3 bytes above the source, every word is read before it is
      overwritten but for its first e bytes: byte i of the destination becomes an old source
      byte, set back from i by e as often as min(i / 4, (3 - i mod 4) / (4 - e)). */
  lemma ShortOverlap(mem: Ram, src: nat, e: nat, n: nat, i: nat)
    requires 1 <= e <= 3 && src + e + 4 * n <= SIZE && i < 4 * n
    ensures e * Moves(i / 4, i % 4, e) <= i
    ensures CopyWords(mem, src, src + e, n)[src + e + i] == mem[src + (i - e * Moves(i / 4, i % 4, e))]
  {
    OriginIs(i / 4, i % 4, e);
    var j, o := src + e + i, src + (i - e * Moves(i / 4, i % 4, e));
    ShortAt(mem, src, e, n, i / 4, i % 4, j, o);
    CopiedIs(mem, src, src + e, n, j, mem[o]);
  }

  /** For a distance of d whole words: word i becomes old word i mod d. */
  lemma WordsRepeat(mem: Ram, src: nat, d: nat, n: nat, i: nat, b: nat)
    requires d > 0 && src + 4 * d + 4 * n <= SIZE && i < d + n && b < 4
    ensures i % d < d
    ensures CopyWords(mem, src, src + 4 * d, n)[src + (4 * i + b)] == mem[src + (4 * (i % d) + b)]
  {
    ByteOfWord(i, d, b);
    SpanRepeats(mem, src, 4 * d, n, 4 * i + b, 4 * (i % d) + b);
  }

  lemma SpanRepeats(mem: Ram, src: nat, e: nat, n: nat, j: nat, r: nat)
    requires e >= 4 && src + e + 4 * n <= SIZE && j < e + 4 * n && r == j % e
    ensures CopyWords(mem, src, src + e, n)[src + j] == mem[src + r]
  {
    OverlapRepeats(mem, src, e, n, j);
  }

  lemma ByteOfWord(i: nat, d: nat, b: nat)
    requires d > 0 && b < 4
    ensures (4 * i + b) % (4 * d) == 4 * (i % d) + b
  {
    var q, r := i / d, i % d;
    Regroup(4, d, q, r);
    QuotientIs(4 * i + b, 4 * d, q, 4 * r + b);
  }

  /** Memory whose only nonzero byte is at o. */
  function OneByte(o: nat): (m: Ram)
    requires o < SIZE
    ensures forall i | 0 <= i < SIZE :: m[i] == if i == o then 1 else 0
  {
    seq(SIZE, i => if i == o then 1 else 0)
  }

  ghost predicate Zero(m: Ram) { forall i | 0 <= i < SIZE :: m[i] == 0 }

  lemma {:induction false} ZeroStaysZero(mem: Ram, src: nat, dst: nat, k: nat)
    requires src + 4 * k <= SIZE && dst + 4 * k <= SIZE && k > 0 && Zero(CopyWords(mem, src, dst, 1))
    ensures Zero(CopyWords(mem, src, dst, k))
  {
    if k > 1 {
      ZeroStaysZero(mem, src, dst, k - 1);
    }
  }

  /** A partial overlap from above loses a source byte: the first word already overwrites a
      byte that a later round was to read. */
  lemma OverlapLoses(src: nat, dst: nat, n: nat) returns (mem: Ram)
    requires src + 4 * n <= SIZE && dst + 4 * n <= SIZE && n >= 2 && src < dst < src + 4 * n
    ensures !CopiedRight(mem, src, dst, n)
  {
    var x := if dst - src >= 4 then 0 else 3;
    mem := OneByte(dst + x);
    var i := dst - src + x;
    FirstWordZero(mem, src, dst, x);
    ZeroStaysZero(mem, src, dst, n);
    var m := CopyWords(mem, src, dst, n);
    assert Slice(mem, src, 4 * n)[i] == mem[src + i] == 1;
    assert m[dst + i] == 0;
    assert Slice(m, dst, 4 * n)[i] == m[dst + i];
  }

  lemma FirstWordZero(mem: Ram, src: nat, dst: nat, x: nat)
    requires src + 4 <= SIZE && dst + 4 <= SIZE && x < 4 && src + 4 <= dst + x && mem == OneByte(dst + x)
    ensures Zero(CopyWords(mem, src, dst, 1))
  {
    assert CopyWords(mem, src, dst, 0) == mem;
    var word := Slice(mem, src, 4);
    assert forall b | 0 <= b < 4 :: word[b] == 0;
  }

  /** The loop is a faithful copy of every memory exactly when the destination does not start
      inside the source above its first byte, or there is one word at most. */
  lemma FaithfulIff(src: nat, dst: nat, n: nat)
    requires src + 4 * n <= SIZE && dst + 4 * n <= SIZE
    ensures (forall mem: Ram :: CopiedRight(mem, src, dst, n)) <==> dst <= src || src + 4 * n <= dst || n <= 1
  {
    if Ascends(src, dst, n) {
      forall mem: Ram
        ensures CopiedRight(mem, src, dst, n)
      {
        AscendingCopies(mem, src, dst, n);
      }
    } else if n <= 1 {
      forall mem: Ram
        ensures CopiedRight(mem, src, dst, n)
      {
        OneWord(mem, src, dst, n);
      }
    } else {
      var mem := OverlapLoses(src, dst, n);
    }
  }

  lemma OneWord(mem: Ram, src: nat, dst: nat, n: nat)
    requires src + 4 * n <= SIZE && dst + 4 * n <= SIZE && n <= 1
    ensures CopiedRight(mem, src, dst, n)
  {
    var m := CopyWords(mem, src, dst, n);
    if n == 1 {
      assert CopyWords(mem, src, dst, 0) == mem;
      assert forall i | 0 <= i < 4 :: Slice(m, dst, 4)[i] == Slice(mem, src, 4)[i];
    }
  }

  // ---- The loop itself ----

  /** One round of the loop: the word is read, then written. */
  method MoveWord(mem: array<byte>, from: nat, to: nat)
    requires mem.Length == SIZE && from + 4 <= SIZE && to + 4 <= SIZE
    modifies mem
    ensures mem[..] == Splice(old(mem[..]), to, Slice(old(mem[..]), from, 4))
  {
    var word := mem[from..from + 4];
    mem[to], mem[to + 1], mem[to + 2], mem[to + 3] := word[0], word[1], word[2], word[3];
    assert mem[..] == Splice(old(mem[..]), to, word);
  }

  lemma NextWord(m0: Ram, src: nat, dst: nat, k: nat, offset: nat, m: Ram)
    requires offset == 4 * k && src + offset + 4 <= SIZE && dst + offset + 4 <= SIZE
    requires m == CopyWords(m0, src, dst, k)
    ensures CopyWords(m0, src, dst, k + 1) == Splice(m, dst + offset, Slice(m, src + offset, 4))
  {
    CopyStep(m0, src, dst, k);
  }

  method CopyRound(mem: array<byte>, src: nat, dst: nat, offset: uint32, ghost m: Ram) returns (next: uint32)
    requires mem.Length == SIZE && src + offset + 4 <= SIZE && dst + offset + 4 <= SIZE
    requires m == Splice(mem[..], dst + offset, Slice(mem[..], src + offset, 4))
    modifies mem
    ensures mem[..] == m && next == offset + 4
  {
    MoveWord(mem, src + offset, dst + offset);
    WrapSmall(offset + 4);
    next := Wrap32(offset + 4);
  }

  lemma {:induction false} LastRound(size: uint32, k: nat)
    requires k <= WordCount(size)
    ensures 4 * k < size <==> k < WordCount(size)
  {
  }

  /** The transfer loop with nothing beside it: a 32-bit offset, one word at a time. */
  method TransferLoop(mem: array<byte>, src: nat, dst: nat, size: uint32)
    requires mem.Length == SIZE && src + 4 * WordCount(size) <= SIZE && dst + 4 * WordCount(size) <= SIZE
    modifies mem
    ensures mem[..] == CopyWords(old(mem[..]), src, dst, WordCount(size))
  {
    var offset: uint32 := 0;
    ghost var k: nat, m0 := 0, mem[..];
    while offset < size
      invariant offset == 4 * k && k <= WordCount(size)
      invariant mem[..] == CopyWords(m0, src, dst, k)
    {
      LastRound(size, k);
      ghost var m := CopyWords(m0, src, dst, k + 1);
      assert m == Splice(mem[..], dst + offset, Slice(mem[..], src + offset, 4)) by {
        NextWord(m0, src, dst, k, offset, mem[..]);
      }
      offset := CopyRound(mem, src, dst, offset, m);
      k := k + 1;
    }
    LastRound(size, k);
  }
}
