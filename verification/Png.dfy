/** The hand-built PNG writer, against a reader that follows sections 3.1 to 3.4 of RFC 2083. */
module Png {
  import opened Wrappers
  import opened Crc32
  import Crc32Theory
  import opened Bytes

  datatype WriteError = OutOfRange

  const SIGNATURE: seq<Byte> := [137, 80, 78, 71, 13, 10, 26, 10]
  const IHDR: seq<Byte> := [73, 72, 68, 82]
  const IDAT: seq<Byte> := [73, 68, 65, 84]
  const IEND: seq<Byte> := [73, 69, 78, 68]

  function Concat(parts: seq<seq<Byte>>): seq<Byte> {
    if parts == [] then [] else parts[0] + Concat(parts[1..])
  }

  // ----- what is written -----

  function CrcOf(kind: seq<Byte>, data: seq<Byte>): nat {
    Crc(kind + data) as int
  }

  function Chunk(kind: seq<Byte>, data: seq<Byte>): seq<Byte> {
    BE32(|data|) + kind + data + BE32(CrcOf(kind, data))
  }

  function HeaderData(width: nat, height: nat): seq<Byte> {
    BE32(width) + BE32(height) + [8, 2, 0, 0, 0]
  }

  function Image(width: nat, height: nat, idat: seq<Byte>): seq<Byte> {
    SIGNATURE + Chunk(IHDR, HeaderData(width, height)) + Chunk(IDAT, idat) + Chunk(IEND, [])
  }

  predicate IsUInt32(n: int) {
    0 <= n < 0x1_0000_0000
  }

  // ----- the code -----

  /** Writes into the buffer; a value outside the unsigned 32-bit range throws. */
  method WriteUInt32BE(buf: array<Byte>, value: int, offset: nat) returns (r: Result<(), WriteError>)
    requires offset + 4 <= buf.Length
    modifies buf
    ensures r.Ok? <==> IsUInt32(value)
    ensures r.Ok? ==> buf[..] == old(buf[..offset]) + BE32(value) + old(buf[offset + 4..])
    ensures r.Err? ==> buf[..] == old(buf[..])
  {
    if !IsUInt32(value) {
      return Err(OutOfRange);
    }
    buf[offset] := Digit256(value, 3);
    buf[offset + 1] := Digit256(value, 2);
    buf[offset + 2] := Digit256(value, 1);
    buf[offset + 3] := Digit256(value, 0);
    hide Digit256;
    assert buf[offset..offset + 4] == BE32(value);
    assert buf[..] == buf[..offset] + buf[offset..offset + 4] + buf[offset + 4..];
    assert buf[..offset] == old(buf[..offset]) && buf[offset + 4..] == old(buf[offset + 4..]);
    r := Ok(());
  }

  method UInt32BE(value: int) returns (r: Result<seq<Byte>, WriteError>)
    ensures r == if IsUInt32(value) then Ok(BE32(value)) else Err(OutOfRange)
  {
    var buf := new Byte[4](_ => 0);
    var w := WriteUInt32BE(buf, value, 0);
    if w.Err? {
      return Err(OutOfRange);
    }
    assert buf[..] == BE32(value);
    r := Ok(buf[..]);
  }

  method PngChunk(table: array<bv32>, kind: seq<Byte>, data: seq<Byte>) returns (r: Result<seq<Byte>, WriteError>)
    requires table.Length == 256 && forall n :: 0 <= n < 256 ==> table[n] == Steps(n as bv32, 8)
    ensures r == if IsUInt32(|data|) then Ok(Chunk(kind, data)) else Err(OutOfRange)
  {
    var length := UInt32BE(|data|);
    if length.Err? {
      return Err(OutOfRange);
    }
    var checksum := ComputeCrc32(table, kind + data);
    var crc := UInt32BE(checksum as int);
    r := Ok(length.value + kind + data + crc.value);
  }

  method Ihdr(table: array<bv32>, width: int, height: int) returns (r: Result<seq<Byte>, WriteError>)
    requires table.Length == 256 && forall n :: 0 <= n < 256 ==> table[n] == Steps(n as bv32, 8)
    ensures r == if IsUInt32(width) && IsUInt32(height) then Ok(Chunk(IHDR, HeaderData(width, height))) else Err(OutOfRange)
  {
    var data := new Byte[13](_ => 0);
    var w := WriteUInt32BE(data, width, 0);
    if w.Err? {
      return Err(OutOfRange);
    }
    w := WriteUInt32BE(data, height, 4);
    if w.Err? {
      return Err(OutOfRange);
    }
    data[8] := 8;
    data[9] := 2;
    data[10] := 0;
    data[11] := 0;
    data[12] := 0;
    assert data[..] == HeaderData(width, height);
    r := PngChunk(table, IHDR, data[..]);
  }

  method AssemblePng(table: array<bv32>, width: int, height: int, idat: seq<Byte>)
    returns (r: Result<seq<Byte>, WriteError>)
    requires table.Length == 256 && forall n :: 0 <= n < 256 ==> table[n] == Steps(n as bv32, 8)
    ensures r == if IsUInt32(width) && IsUInt32(height) && IsUInt32(|idat|) then Ok(Image(width, height, idat))
                 else Err(OutOfRange)
  {
    var header := Ihdr(table, width, height);
    if header.Err? {
      return Err(OutOfRange);
    }
    var data := PngChunk(table, IDAT, idat);
    if data.Err? {
      return Err(OutOfRange);
    }
    var end := PngChunk(table, IEND, []);
    r := Ok(SIGNATURE + header.value + data.value + end.value);
  }

  // ----- an independent reader -----

  /** A chunk read from the front, and what follows it. */
  datatype Parsed = Parsed(kind: seq<Byte>, data: seq<Byte>, rest: seq<Byte>)

  /** Length, type, data, CRC over type and data; anything short or corrupt is no chunk. */
  function ReadChunk(s: seq<Byte>): Option<Parsed> {
    if |s| < 12 || |s| < 12 + U32BE(s, 0) then None
    else
      var n := U32BE(s, 0);
      if U32BE(s, 8 + n) == CrcOf(s[4..8], s[8..8 + n])
      then Some(Parsed(s[4..8], s[8..8 + n], s[12 + n..]))
      else None
  }

  /** All chunks of a stream, which must end where its last chunk does. */
  function ReadChunks(s: seq<Byte>): Option<seq<(seq<Byte>, seq<Byte>)>> {
    if s == [] then Some([])
    else
      var first := ReadChunk(s);
      if first.None? || |first.value.rest| >= |s| then None
      else
        var others := ReadChunks(first.value.rest);
        if others.None? then None else Some([(first.value.kind, first.value.data)] + others.value)
  }

  function ReadPng(s: seq<Byte>): Option<seq<(seq<Byte>, seq<Byte>)>> {
    if |s| >= 8 && s[..8] == SIGNATURE then ReadChunks(s[8..]) else None
  }

  lemma LayoutOf(kind: seq<Byte>, data: seq<Byte>, crc: nat, rest: seq<Byte>)
    requires |kind| == 4 && IsUInt32(|data|) && IsUInt32(crc)
    ensures var s := BE32(|data|) + kind + data + BE32(crc) + rest;
            && |s| == 12 + |data| + |rest| && U32BE(s, 0) == |data| && s[4..8] == kind && s[8..8 + |data|] == data
            && U32BE(s, 8 + |data|) == crc && s[12 + |data|..] == rest
  {
    var s := BE32(|data|) + kind + data + BE32(crc) + rest;
    ReadsBack([], |data|, kind + data + BE32(crc) + rest);
    assert s == [] + BE32(|data|) + (kind + data + BE32(crc) + rest);
    ReadsBack(BE32(|data|) + kind + data, crc, rest);
  }

  /** A written chunk is read back, whatever follows it. */
  lemma ChunkReadsBack(kind: seq<Byte>, data: seq<Byte>, rest: seq<Byte>)
    requires |kind| == 4 && IsUInt32(|data|)
    ensures ReadChunk(Chunk(kind, data) + rest) == Some(Parsed(kind, data, rest))
  {
    LayoutOf(kind, data, CrcOf(kind, data), rest);
  }

  /** The written image is a signature and three intact chunks in order, holding exactly what was given. */
  lemma ImageReadsBack(width: nat, height: nat, idat: seq<Byte>)
    requires IsUInt32(width) && IsUInt32(height) && IsUInt32(|idat|)
    ensures ReadPng(Image(width, height, idat))
         == Some([(IHDR, HeaderData(width, height)), (IDAT, idat), (IEND, [])])
  {
    hide Chunk, HeaderData, ReadChunks;
    var header := HeaderData(width, height);
    HeaderLength(width, height);
    var last := Chunk(IEND, []);
    var middle := Chunk(IDAT, idat) + last;
    assert last + [] == last;
    var all := Chunk(IHDR, header) + middle;
    assert Image(width, height, idat) == SIGNATURE + all;
    assert (SIGNATURE + all)[..8] == SIGNATURE && (SIGNATURE + all)[8..] == all;
    ReadsNothing();
    OneMoreChunk(IEND, [], []);
    assert ReadChunks(last).value == [(IEND, [])];
    OneMoreChunk(IDAT, idat, last);
    assert ReadChunks(middle).value == [(IDAT, idat), (IEND, [])];
    OneMoreChunk(IHDR, header, middle);
    assert ReadChunks(all).value == [(IHDR, header), (IDAT, idat), (IEND, [])];
  }

  /** The signature and the chunk types, as section 3.1 and 3.2 of RFC 2083 spell them. */
  lemma KindsAre()
    ensures IHDR == Ascii("IHDR") && IDAT == Ascii("IDAT") && IEND == Ascii("IEND")
    ensures SIGNATURE == [0x89] + Ascii("PNG") + [13, 10, 26, 10]
  {
  }

  /**
   * What a reader is told: width and height, eight bits per sample of red, green and blue, the one compression
   * and filter method there is, no interlacing, and the given data.
   */
  lemma ImageSays(width: nat, height: nat, idat: seq<Byte>) returns (header: seq<Byte>)
    requires IsUInt32(width) && IsUInt32(height) && IsUInt32(|idat|)
    ensures ReadPng(Image(width, height, idat)) == Some([(IHDR, header), (IDAT, idat), (IEND, [])])
    ensures |header| == 13 && U32BE(header, 0) == width && U32BE(header, 4) == height
    ensures header[8] == 8 && header[9] == 2 && header[10] == 0 && header[11] == 0 && header[12] == 0
  {
    hide HeaderData, Chunk, ReadPng, Image;
    header := HeaderData(width, height);
    ImageReadsBack(width, height, idat);
    HeaderSays(width, height);
  }

  lemma HeaderSays(width: nat, height: nat)
    requires IsUInt32(width) && IsUInt32(height)
    ensures var header := HeaderData(width, height);
            && |header| == 13 && U32BE(header, 0) == width && U32BE(header, 4) == height
            && header[8] == 8 && header[9] == 2 && header[10] == 0 && header[11] == 0 && header[12] == 0
  {
    var rest := [8, 2, 0, 0, 0];
    ReadsBack([], width, BE32(height) + rest);
    ReadsBack(BE32(width), height, rest);
    assert HeaderData(width, height) == [] + BE32(width) + (BE32(height) + rest) == BE32(width) + BE32(height) + rest;
  }

  lemma ReadsNothing()
    ensures ReadChunks([]) == Some([])
  {
  }

  lemma OneMoreChunk(kind: seq<Byte>, data: seq<Byte>, rest: seq<Byte>)
    requires |kind| == 4 && IsUInt32(|data|) && ReadChunks(rest).Some?
    ensures ReadChunks(Chunk(kind, data) + rest) == Some([(kind, data)] + ReadChunks(rest).value)
  {
    ChunkReadsBack(kind, data, rest);
    hide Chunk, ReadChunk;
  }

  lemma HeaderLength(width: nat, height: nat)
    ensures |HeaderData(width, height)| == 13
  {
  }

  /** A chunk whose type and data were damaged within 32 adjacent bits, at any bit offset, is not accepted. */
  lemma DamageIsDetected(kind: seq<Byte>, data: seq<Byte>, kind2: seq<Byte>, data2: seq<Byte>, start: nat, rest: seq<Byte>)
    requires |kind| == |kind2| == 4 && |data| == |data2| && IsUInt32(|data|)
    requires Crc32Theory.BurstApart(kind + data, kind2 + data2, start)
    ensures ReadChunk(BE32(|data|) + kind2 + data2 + BE32(CrcOf(kind, data)) + rest).None?
  {
    LayoutOf(kind2, data2, CrcOf(kind, data), rest);
    Crc32Theory.BurstsAreDetected(kind + data, kind2 + data2, start);
    CrcsDiffer(Crc(kind + data), Crc(kind2 + data2));
  }

  lemma CrcsDiffer(a: bv32, b: bv32)
    requires a != b
    ensures a as int != b as int
  {
    assert (a as int) as bv32 == a && (b as int) as bv32 == b;
  }
}
