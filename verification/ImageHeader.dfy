/** Reading an image's dimensions from its leading bytes: PNG, GIF, WebP and JPEG. */
module ImageHeader {
  import opened Wrappers
  import opened Crc32
  import opened Bytes

  datatype Format = PNG | JPEG | GIF | WEBP

  datatype Header = Header(width: int, height: int, format: Format)

  /** `Unsupported` is the parser's own error; `OutOfBounds` is a read past the end, where DataView throws. */
  datatype ParseError = Unsupported | OutOfBounds

  // ----- JPEG -----

  const SOF_MARKERS: set<int> := {0xc0, 0xc1, 0xc2, 0xc3, 0xc5, 0xc6, 0xc7, 0xc9, 0xca, 0xcb, 0xcd, 0xce, 0xcf}

  /** Markers that the scan skips without looking for a length: SOI, EOI and RST0 to RST7. */
  predicate Skipped(marker: int) {
    0xd0 <= marker <= 0xd9
  }

  /** The scan from one position on, which sees only the bytes from there. */
  function Scan(s: seq<Byte>): Result<Header, ParseError>
    decreases |s|
  {
    if |s| <= 4 then Err(Unsupported)
    else if s[0] != 0xff then Scan(s[1..])
    else if s[1] == 0xff then Scan(s[1..])
    else if Skipped(s[1]) then Scan(s[2..])
    else if s[1] in SOF_MARKERS then
      if |s| < 9 then Err(OutOfBounds) else Ok(Header(U16BE(s, 7), U16BE(s, 5), JPEG))
    else
      var next := 2 + U16BE(s, 2);
      if next > |s| then Err(Unsupported) else Scan(s[next..])
  }

  method ParseJpegDimensions(b: seq<Byte>) returns (r: Result<Header, ParseError>)
    requires |b| >= 2
    ensures r == Scan(b[2..])
  {
    var offset := 2;
    while offset + 4 < |b|
      invariant 2 <= offset
      invariant Scan(b[2..]) == if offset <= |b| then Scan(b[offset..]) else Err(Unsupported)
      decreases |b| - offset
    {
      ghost var s := b[offset..];
      assert s[1..] == b[offset + 1..] && s[2..] == b[offset + 2..];
      if b[offset] != 0xff {
        offset := offset + 1;
        continue;
      }
      var marker := b[offset + 1];
      if marker == 0xff {
        offset := offset + 1;
        continue;
      }
      if marker == 0xd8 || marker == 0xd9 || (marker >= 0xd0 && marker <= 0xd7) {
        offset := offset + 2;
        continue;
      }
      var segLength := U16BE(b, offset + 2);
      assert segLength == U16BE(s, 2);
      if marker in SOF_MARKERS {
        if offset + 9 > |b| {
          return Err(OutOfBounds);
        }
        var height := U16BE(b, offset + 5);
        var width := U16BE(b, offset + 7);
        return Ok(Header(width, height, JPEG));
      }
      assert offset + 2 + segLength <= |b| ==> s[2 + segLength..] == b[offset + 2 + segLength..];
      offset := offset + 2 + segLength;
    }
    r := Err(Unsupported);
  }

  // ----- WebP -----

  /** A 32-bit pattern as the signed number that the bitwise operators compute with. */
  function ToInt32(n: int): int {
    if n % 0x1_0000_0000 >= 0x8000_0000 then n % 0x1_0000_0000 - 0x1_0000_0000 else n % 0x1_0000_0000
  }

  /** `x >> bits`, arithmetic: rounds toward minus infinity. */
  function ShiftRightSigned(x: int, bits: nat): int
    decreases bits
  {
    if bits == 0 then x else ShiftRightSigned(x / 2, bits - 1)
  }

  function ParseWebpDimensions(b: seq<Byte>): Result<Header, ParseError>
    requires |b| >= 30
  {
    var fourCC := b[12..16];
    if fourCC == [86, 80, 56, 32] then        // "VP8 "
      Ok(Header(U16LE(b, 26) % 0x4000, U16LE(b, 28) % 0x4000, WEBP))
    else if fourCC == [86, 80, 56, 76] then   // "VP8L"
      var bits := ToInt32(b[21] + (b[22] as int) * 0x100 + (b[23] as int) * 0x1_0000 + (b[24] as int) * 0x100_0000);
      Ok(Header(bits % 0x4000 + 1, ShiftRightSigned(bits, 14) % 0x4000 + 1, WEBP))
    else if fourCC == [86, 80, 56, 88] then   // "VP8X"
      Ok(Header(1 + U24LE(b, 24), 1 + U24LE(b, 27), WEBP))
    else Err(Unsupported)
  }

  // ----- the dispatcher -----

  predicate IsPng(b: seq<Byte>) {
    |b| >= 24 && b[..8] == [0x89, 0x50, 0x4e, 0x47, 0x0d, 0x0a, 0x1a, 0x0a]
  }

  predicate IsGif(b: seq<Byte>) {
    |b| >= 10 && b[..4] == [0x47, 0x49, 0x46, 0x38] && (b[4] == 0x37 || b[4] == 0x39) && b[5] == 0x61
  }

  predicate IsWebp(b: seq<Byte>) {
    |b| >= 30 && b[..4] == [0x52, 0x49, 0x46, 0x46] && b[8..12] == [0x57, 0x45, 0x42, 0x50]
  }

  predicate IsJpeg(b: seq<Byte>) {
    |b| >= 4 && b[0] == 0xff && b[1] == 0xd8
  }

  function ParseImageHeader(b: seq<Byte>): Result<Header, ParseError> {
    if IsPng(b) then Ok(Header(U32BE(b, 16), U32BE(b, 20), PNG))
    else if IsGif(b) then Ok(Header(U16LE(b, 6), U16LE(b, 8), GIF))
    else if IsWebp(b) then ParseWebpDimensions(b)
    else if IsJpeg(b) then Scan(b[2..])
    else Err(Unsupported)
  }
}
