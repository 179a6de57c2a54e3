/** The Intel HEX loader, on lines of text and on records, and its agreement with
    the address map that instruction fetches go through (mem/memory.cpp). */
module HexLoader {
  import opened Words
  import opened MemoryModel

  // ---- The loader on text ----

  function HexChar(c: char): (v: nat)
    ensures v < 16
  {
    if '0' <= c <= '9' then c as int - '0' as int
    else if 'A' <= c <= 'F' then c as int - 'A' as int + 10
    else if 'a' <= c <= 'f' then c as int - 'a' as int + 10
    else 0
  }

  /** The terminator stands for every position past the end of the line. */
  function CharAt(line: string, i: nat): char {
    if i < |line| then line[i] else '\0'
  }

  function ByteAt(line: string, pos: nat): byte {
    HexChar(CharAt(line, pos)) * 16 + HexChar(CharAt(line, pos + 1))
  }

  function LineLength(line: string): byte { ByteAt(line, 1) }

  function LineAddress(line: string): uint32 { ByteAt(line, 3) * 256 + ByteAt(line, 5) }

  function LineType(line: string): byte { ByteAt(line, 7) }

  /** The first n payload bytes of a line. */
  function LineBytes(line: string, n: nat): (r: seq<byte>)
    ensures |r| == n
  {
    seq(n, i requires 0 <= i => ByteAt(line, 9 + 2 * i))
  }

  datatype Loader = Loader(mem: seq<byte>, base: uint64, ext: uint32, first: Option<uint32>)

  /** The bytes of a record that fit below SIZE, stored from an offset on. */
  function Store(mem: seq<byte>, offset: nat, bytes: seq<byte>): (r: seq<byte>)
    requires |mem| == SIZE
    ensures |r| == SIZE
    ensures forall k | 0 <= k < SIZE :: r[k] == if offset <= k < offset + |bytes| then bytes[k - offset] else mem[k]
  {
    seq(SIZE, k requires 0 <= k < SIZE => if offset <= k < offset + |bytes| then bytes[k - offset] else mem[k])
  }

  function StoreData(st: Loader, full: uint32, bytes: seq<byte>): (r: Loader)
    requires |st.mem| == SIZE
    ensures |r.mem| == SIZE && r.ext == st.ext
  {
    var base := if st.first.None? then full else st.base;
    var first := if st.first.None? then Some(full) else st.first;
    st.(mem := Store(st.mem, Wrap32(full - base), bytes), base := base, first := first)
  }

  function ShiftIn(ext: uint32, bytes: seq<byte>): uint32 {
    if bytes == [] then ext
    else Wrap32(ShiftIn(ext, bytes[..|bytes| - 1]) * 256 + bytes[|bytes| - 1])
  }

  /** One line; the flag says that loading ends here. */
  function LineStep(st: Loader, line: string): (r: (Loader, bool))
    requires |st.mem| == SIZE
    ensures |r.0.mem| == SIZE
  {
    if CharAt(line, 0) != ':' then (st, false)
    else if LineType(line) == 0x00 then
      (StoreData(st, Wrap32(LineAddress(line) + st.ext), LineBytes(line, LineLength(line))), false)
    else if LineType(line) == 0x04 then
      (st.(ext := Wrap32(ShiftIn(0, LineBytes(line, LineLength(line))) * 0x1_0000)), false)
    else (st, LineType(line) == 0x01)
  }

  function LoadLines(st: Loader, lines: seq<string>): (r: Loader)
    requires |st.mem| == SIZE
    ensures |r.mem| == SIZE
    decreases lines
  {
    if lines == [] then st else
      var (st', stop) := LineStep(st, lines[0]);
      if stop then st' else LoadLines(st', lines[1..])
  }

  // ---- Text that is no record ----

  /** A character that is no hexadecimal digit reads as zero. */
  lemma NoDigit(c: char)
    ensures HexChar(c) != 0 ==> '1' <= c <= '9' || 'A' <= c <= 'F' || 'a' <= c <= 'f'
  {
  }

  function Zeros(n: nat): (z: string)
    ensures |z| == n
  {
    seq(n, _ => '0')
  }

  lemma PaddedByte(line: string, n: nat, pos: nat)
    ensures ByteAt(line + Zeros(n), pos) == ByteAt(line, pos)
  {
  }

  /** A line that ends early reads as if padded with zeros. */
  lemma PaddedLine(st: Loader, line: string, n: nat)
    requires |st.mem| == SIZE
    ensures LineStep(st, line + Zeros(n)) == LineStep(st, line)
  {
    var padded := line + Zeros(n);
    forall pos: nat ensures ByteAt(padded, pos) == ByteAt(line, pos) {
      PaddedByte(line, n, pos);
    }
    assert LineBytes(padded, LineLength(line)) == LineBytes(line, LineLength(line));
  }

  /** The lines that begin with a colon. */
  function RecordLines(lines: seq<string>): seq<string> {
    if lines == [] then []
    else (if lines[0] != "" && lines[0][0] == ':' then [lines[0]] else []) + RecordLines(lines[1..])
  }

  /** No other line matters. */
  lemma {:induction false} OnlyRecordLines(st: Loader, lines: seq<string>)
    requires |st.mem| == SIZE
    ensures LoadLines(st, lines) == LoadLines(st, RecordLines(lines))
    decreases lines
  {
    if lines != [] {
      var (st', stop) := LineStep(st, lines[0]);
      var rest := RecordLines(lines[1..]);
      OnlyRecordLines(st', lines[1..]);
      if CharAt(lines[0], 0) == ':' {
        assert RecordLines(lines)[0] == lines[0] && RecordLines(lines)[1..] == rest;
      } else {
        assert RecordLines(lines) == rest;
      }
    }
  }

  const DEFAULT_PC: uint32 := 0x8000_0000

  /** The loop over the payload of one data line. */
  method StoreLine(memory: Memory, line: string, offset: uint32)
    requires memory.Valid()
    modifies memory.mem
    ensures memory.mem[..] == Store(old(memory.mem[..]), offset, LineBytes(line, LineLength(line)))
  {
    var len: nat, i: nat := LineLength(line), 0;
    while i < len && offset + i < SIZE
      invariant 0 <= i <= len
      invariant forall k | 0 <= k < SIZE ::
                  memory.mem[k] == if offset <= k < offset + i then ByteAt(line, 9 + 2 * (k - offset))
                                   else old(memory.mem[k])
    {
      memory.mem[offset + i] := ByteAt(line, 9 + 2 * i);
      i := i + 1;
    }
  }

  /** The loop over the payload of one extended-address line. */
  method ExtendedAddress(line: string) returns (ext: uint32)
    ensures ext == Wrap32(ShiftIn(0, LineBytes(line, LineLength(line))) * 0x1_0000)
  {
    ext := 0;
    for i := 0 to LineLength(line)
      invariant ext == ShiftIn(0, LineBytes(line, i))
    {
      assert LineBytes(line, i + 1)[..i] == LineBytes(line, i);
      ext := Wrap32(ext * 256 + ByteAt(line, 9 + 2 * i));
    }
    ext := Wrap32(ext * 0x1_0000);
  }

  /** The loop over lines, as the source runs it; None is a file that cannot be opened. */
  method LoadHex(memory: Memory, file: Option<seq<string>>) returns (startPc: uint32)
    requires memory.Valid()
    modifies memory.mem, memory`baseAddr
    ensures match file
            case None =>
              && startPc == 0x8000_0000
              && memory.mem[..] == old(memory.mem[..]) && memory.baseAddr == old(memory.baseAddr)
            case Some(lines) =>
              var st := LoadLines(Loader(old(memory.mem[..]), old(memory.baseAddr), 0, None), lines);
              && memory.mem[..] == st.mem && memory.baseAddr == st.base
              && startPc == if st.first.Some? then st.first.value else 0x8000_0000
  {
    if file.None? {
      return DEFAULT_PC;
    }
    var lines := file.value;
    var ext: uint32, first: uint32, firstData := 0, 0, true;
    startPc := DEFAULT_PC;
    ghost var goal := LoadLines(Loader(memory.mem[..], memory.baseAddr, 0, None), lines);
    var n := 0;
    while n < |lines|
      invariant 0 <= n <= |lines|
      invariant goal == LoadLines(Loader(memory.mem[..], memory.baseAddr, ext, if firstData then None else Some(first)),
                                  lines[n..])
    {
      ghost var st := Loader(memory.mem[..], memory.baseAddr, ext, if firstData then None else Some(first));
      var line := lines[n];
      assert lines[n..][0] == line && lines[n..][1..] == lines[n + 1..];
      n := n + 1;
      if CharAt(line, 0) != ':' {
        continue;
      }
      var kind := LineType(line);
      if kind == 0x00 {
        var full := Wrap32(LineAddress(line) + ext);
        if firstData {
          memory.baseAddr, first, firstData := full, full, false;
        }
        StoreLine(memory, line, Wrap32(full - memory.baseAddr));
      } else if kind == 0x04 {
        ext := ExtendedAddress(line);
      } else if kind == 0x01 {
        assert goal == st;
        break;
      }
      assert LineStep(st, line)
          == (Loader(memory.mem[..], memory.baseAddr, ext, if firstData then None else Some(first)), false);
    }
    if !firstData {
      startPc := first;
    }
  }
}
