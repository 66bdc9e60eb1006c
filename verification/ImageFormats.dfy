/** The header reader against the formats: what their writers lay out is what it reads. */
module ImageFormats {
  import opened Wrappers
  import opened Crc32
  import opened Bytes
  import opened Png
  import opened ImageHeader

  // ----- PNG -----

  /** Reading the header of a written image gives back its dimensions, whatever its pixel data. */
  lemma PngRoundTrip(width: nat, height: nat, idat: seq<Byte>)
    requires IsUInt32(width) && IsUInt32(height)
    ensures ParseImageHeader(Image(width, height, idat)) == Ok(Header(width, height, PNG))
  {
    var tail := ImageLayout(width, height, idat);
    hide Image;
    PngHeaderAt(SIGNATURE + BE32(13) + IHDR, width, height, tail);
  }

  lemma PngHeaderAt(front: seq<Byte>, width: nat, height: nat, tail: seq<Byte>)
    requires IsUInt32(width) && IsUInt32(height) && |front| == 16 && front[..8] == SIGNATURE
    ensures ParseImageHeader(front + (BE32(width) + (BE32(height) + tail))) == Ok(Header(width, height, PNG))
  {
    var w, h := BE32(width), BE32(height);
    var b := front + (w + (h + tail));
    assert |w| == 4 && |h| == 4;
    ReadsBack(front, width, h + tail);
    ReadsBack(front + w, height, tail);
    hide BE32, U32BE;
    assert b == front + w + (h + tail);
    assert b == (front + w) + h + tail;
    assert b[..8] == SIGNATURE;
  }

  /** The dimensions stand behind signature, length and type of the first chunk. */
  lemma ImageLayout(width: nat, height: nat, idat: seq<Byte>) returns (tail: seq<Byte>)
    ensures Image(width, height, idat) == (SIGNATURE + BE32(13) + IHDR) + (BE32(width) + (BE32(height) + tail))
  {
    var header, fixed := HeaderData(width, height), [8, 2, 0, 0, 0];
    var crc, data, end := BE32(CrcOf(IHDR, header)), Chunk(IDAT, idat), Chunk(IEND, []);
    assert header == BE32(width) + BE32(height) + fixed && |header| == 13;
    assert Chunk(IHDR, header) == BE32(13) + IHDR + header + crc;
    assert Image(width, height, idat) == SIGNATURE + Chunk(IHDR, header) + data + end;
    hide BE32, Chunk, HeaderData, Image, CrcOf;
    RegroupChunk(SIGNATURE, BE32(13), IHDR, header, crc, data, end);
    RegroupHeader(BE32(width), BE32(height), fixed, crc + data + end);
    tail := fixed + (crc + data + end);
  }

  lemma RegroupChunk(a: seq<Byte>, b: seq<Byte>, c: seq<Byte>, d: seq<Byte>, e: seq<Byte>, f: seq<Byte>, g: seq<Byte>)
    ensures a + (b + c + d + e) + f + g == (a + b + c) + (d + (e + f + g))
  {
  }

  lemma RegroupHeader(a: seq<Byte>, b: seq<Byte>, c: seq<Byte>, d: seq<Byte>)
    ensures a + b + c + d == a + (b + (c + d))
  {
  }

  /** The PNG branch looks at the first 24 bytes only: no pixel is ever decoded. */
  lemma PngIgnoresTheRest(b: seq<Byte>, rest: seq<Byte>)
    requires IsPng(b)
    ensures ParseImageHeader(b[..24] + rest) == ParseImageHeader(b)
  {
  }

  // ----- JPEG -----

  /**
   * What may stand before the first frame header: stray bytes, markers without a length, of which TEM
   * is told apart, and segments.
   */
  datatype Item =
    | Stray(b: Byte)
    | Bare(fill: nat, marker: Byte)
    | Tem(fill: nat)
    | Segment(fill: nat, marker: Byte, payload: seq<Byte>)

  /** Markers that stand alone, in Table B.1 of ITU-T T.81: RST0 to RST7, SOI and EOI; TEM is told apart. */
  predicate Standalone(m: int) {
    0xd0 <= m <= 0xd7 || m == 0xd8 || m == 0xd9
  }

  /** Start-of-frame markers in Table B.1: SOF0 to SOF15, but DHT, JPG and DAC in between are none. */
  predicate IsFrame(m: int) {
    0xc0 <= m <= 0xcf && m !in {0xc4, 0xc8, 0xcc}
  }

  ghost predicate WellFormed(item: Item) {
    match item
    case Stray(b) => b != 0xff
    case Bare(_, m) => Standalone(m)
    case Tem(_) => true
    case Segment(_, m, payload) =>
      m != 0xff && m != TEM && !Standalone(m) && !IsFrame(m) && |payload| <= 0xffff - 2
  }

  const TEM: Byte := 0x01

  ghost predicate NoTem(items: seq<Item>) {
    forall i :: 0 <= i < |items| ==> !items[i].Tem?
  }

  function Fill(n: nat): seq<Byte> {
    if n == 0 then [] else [0xff] + Fill(n - 1)
  }

  function Marker(fill: nat, marker: Byte): seq<Byte> {
    Fill(fill) + [0xff, marker]
  }

  function Encode(item: Item): seq<Byte> {
    match item
    case Stray(b) => [b]
    case Bare(fill, m) => Marker(fill, m)
    case Tem(fill) => Marker(fill, TEM)
    case Segment(fill, m, payload) => Marker(fill, m) + BE16(2 + |payload|) + payload
  }

  function EncodeAll(items: seq<Item>): seq<Byte> {
    if items == [] then [] else Encode(items[0]) + EncodeAll(items[1..])
  }

  /** A frame header: marker, length, precision, lines, samples per line; the rest of it is arbitrary. */
  function FrameHeader(fill: nat, marker: Byte, length: nat, precision: Byte, height: nat, width: nat): seq<Byte> {
    Marker(fill, marker) + BE16(length) + [precision] + BE16(height) + BE16(width)
  }

  lemma {:induction false} ScanSkipsFill(fill: nat, marker: Byte, tail: seq<Byte>)
    requires |tail| >= 3 && marker != 0xff
    ensures Scan(Marker(fill, marker) + tail) == Scan([0xff, marker] + tail)
  {
    if fill > 0 {
      var s := Marker(fill, marker) + tail;
      assert s[1..] == Marker(fill - 1, marker) + tail;
      assert s[0] == 0xff && s[1] == 0xff by {
        assert s[1] == (Marker(fill - 1, marker) + tail)[0];
      }
      ScanSkipsFill(fill - 1, marker, tail);
    } else {
      assert Marker(0, marker) == [0xff, marker];
    }
  }

  lemma ScanSkipsBare(fill: nat, m: Byte, tail: seq<Byte>)
    requires Standalone(m) && |tail| >= 5
    ensures Scan(Marker(fill, m) + tail) == Scan(tail)
  {
    ScanSkipsFill(fill, m, tail);
    assert ([0xff, m] + tail)[2..] == tail;
  }

  lemma ScanSkipsSegment(fill: nat, m: Byte, payload: seq<Byte>, tail: seq<Byte>)
    requires m != 0xff && !Standalone(m) && !IsFrame(m) && |payload| <= 0xffff - 2 && |tail| >= 5
    ensures Scan(Marker(fill, m) + BE16(2 + |payload|) + payload + tail) == Scan(tail)
  {
    hide U16BE, Scan, Marker;
    var n, front := BE16(2 + |payload|), [0xff, m];
    var s := front + (n + (payload + tail));
    ReadsBack(front, 2 + |payload|, payload + tail);
    assert |n| == 2 && |front| == 2 && s[0] == 0xff && s[1] == m;
    ScanSegment(s);
    hide BE16;
    RegroupHeader(front, n, payload, tail);
    Behind(front, n, payload, tail);
    ScanSkipsFill(fill, m, n + (payload + tail));
    RegroupHeader(Marker(fill, m), n, payload, tail);
  }

  lemma Behind(a: seq<Byte>, b: seq<Byte>, c: seq<Byte>, d: seq<Byte>)
    ensures (a + (b + (c + d)))[|a| + |b| + |c|..] == d
    ensures (a + (b + (c + d)))[|a|..] == b + (c + d)
    ensures a + b + (c + d) == a + (b + (c + d))
  {
  }

  lemma ScanSegment(s: seq<Byte>)
    requires |s| > 4 && s[0] == 0xff && s[1] != 0xff && !Standalone(s[1]) && !IsFrame(s[1])
    ensures 2 + U16BE(s, 2) <= |s| ==> Scan(s) == Scan(s[2 + U16BE(s, 2)..])
  {
  }

  lemma LongSegment(s: seq<Byte>)
    requires |s| > 4 && s[0] == 0xff && s[1] != 0xff && !Standalone(s[1]) && !IsFrame(s[1])
    ensures 2 + U16BE(s, 2) > |s| ==> Scan(s) == Err(Unsupported)
  {
  }

  lemma ScanSkipsStray(b: Byte, tail: seq<Byte>)
    requires b != 0xff && |tail| >= 4
    ensures Scan([b] + tail) == Scan(tail)
  {
  }

  /** The scan steps over one item and goes on right behind it. */
  lemma ScanSkipsItem(item: Item, tail: seq<Byte>)
    requires WellFormed(item) && !item.Tem? && |tail| >= 5
    ensures Scan(Encode(item) + tail) == Scan(tail)
  {
    hide Scan, Marker, BE16;
    match item
    case Stray(b) =>
      ScanSkipsStray(b, tail);
    case Bare(fill, m) =>
      ScanSkipsBare(fill, m, tail);
    case Segment(fill, m, payload) =>
      ScanSkipsSegment(fill, m, payload, tail);
  }

  lemma {:induction false} ScanSkipsItems(items: seq<Item>, tail: seq<Byte>)
    requires (forall i :: 0 <= i < |items| ==> WellFormed(items[i])) && NoTem(items) && |tail| >= 5
    ensures Scan(EncodeAll(items) + tail) == Scan(tail)
  {
    if items == [] {
      assert EncodeAll(items) + tail == tail;
    } else {
      var rest := EncodeAll(items[1..]) + tail;
      assert EncodeAll(items) + tail == Encode(items[0]) + rest;
      ScanSkipsItem(items[0], rest);
      ScanSkipsItems(items[1..], tail);
    }
  }

  lemma FrameIsRead(fill: nat, marker: Byte, length: nat, precision: Byte, height: nat, width: nat, rest: seq<Byte>)
    requires IsFrame(marker) && length < 0x1_0000 && height < 0x1_0000 && width < 0x1_0000
    ensures Scan(FrameHeader(fill, marker, length, precision, height, width) + rest) == Ok(Header(width, height, JPEG))
  {
    var body := BE16(length) + [precision] + BE16(height) + BE16(width) + rest;
    assert FrameHeader(fill, marker, length, precision, height, width) + rest == Marker(fill, marker) + body;
    ScanSkipsFill(fill, marker, body);
    var s := [0xff, marker] + body;
    var front := [0xff, marker] + BE16(length) + [precision];
    ReadsBack(front, height, BE16(width) + rest);
    assert s == front + BE16(height) + (BE16(width) + rest);
    ReadsBack(front + BE16(height), width, rest);
    assert s == (front + BE16(height)) + BE16(width) + rest;
  }

  /**
   * For every list of well-formed segments with arbitrary payloads, fill bytes, restart markers and
   * stray bytes, but no TEM, before the first frame header, the parser returns that header's dimensions.
   */
  lemma JpegRoundTrip(items: seq<Item>, fill: nat, marker: Byte, length: nat, precision: Byte,
                      height: nat, width: nat, rest: seq<Byte>)
    requires (forall i :: 0 <= i < |items| ==> WellFormed(items[i])) && NoTem(items)
    requires IsFrame(marker) && length < 0x1_0000 && height < 0x1_0000 && width < 0x1_0000
    ensures var frame := FrameHeader(fill, marker, length, precision, height, width);
            ParseImageHeader([0xff, 0xd8] + EncodeAll(items) + frame + rest) == Ok(Header(width, height, JPEG))
  {
    var frame := FrameHeader(fill, marker, length, precision, height, width);
    var b := [0xff, 0xd8] + EncodeAll(items) + frame + rest;
    assert |frame| >= 9;
    hide FrameHeader, EncodeAll, Scan;
    RegroupHeader([0xff, 0xd8], EncodeAll(items), frame, rest);
    Behind([0xff, 0xd8], EncodeAll(items), frame, rest);
    ScanSkipsItems(items, frame + rest);
    FrameIsRead(fill, marker, length, precision, height, width, rest);
    JpegIsScanned(b);
  }

  lemma JpegIsScanned(b: seq<Byte>)
    requires |b| >= 4 && b[0] == 0xff && b[1] == 0xd8
    ensures ParseImageHeader(b) == Scan(b[2..])
  {
  }

  /** Whatever the input, dimensions that the scan returns were read behind a frame marker in it. */
  lemma {:induction false} ScanReadsAFrame(s: seq<Byte>)
    requires Scan(s).Ok?
    ensures exists k :: 0 <= k <= |s| - 9 && FrameAt(s, k, Scan(s).value)
    decreases |s|
  {
    var n := if s[0] != 0xff || s[1] == 0xff then 1 else if Standalone(s[1]) then 2
             else if IsFrame(s[1]) then 0 else 2 + U16BE(s, 2);
    if n == 0 {
      assert FrameAt(s, 0, Scan(s).value);
    } else {
      ScanReadsAFrame(s[n..]);
      var k :| 0 <= k <= |s[n..]| - 9 && FrameAt(s[n..], k, Scan(s).value);
      assert FrameAt(s, n + k, Scan(s).value);
    }
  }

  ghost predicate FrameAt(s: seq<Byte>, k: nat, h: Header) {
    && k + 9 <= |s| && s[k] == 0xff && IsFrame(s[k + 1])
    && h == Header(U16BE(s, k + 7), U16BE(s, k + 5), JPEG)
  }

  /** The scan behind a TEM that is taken for a segment: the two bytes behind it are read as its length. */
  function AfterTem(tail: seq<Byte>): Result<Header, ParseError>
    requires |tail| >= 2
  {
    if U16BE(tail, 0) > |tail| then Err(Unsupported) else Scan(tail[U16BE(tail, 0)..])
  }

  /** TEM has no length in ITU-T T.81, Table B.1, but the scan reads one. */
  lemma TemIsTakenForASegment(fill: nat, tail: seq<Byte>)
    requires |tail| >= 3
    ensures Scan(Marker(fill, TEM) + tail) == AfterTem(tail)
  {
    hide Scan, AfterTem, Marker;
    ScanSkipsFill(fill, TEM, tail);
    LengthBehindTem(tail);
  }

  lemma LengthBehindTem(tail: seq<Byte>)
    requires |tail| >= 3
    ensures Scan([0xff, TEM] + tail) == AfterTem(tail)
  {
    hide Scan;
    var s, n := [0xff, TEM] + tail, U16BE(tail, 0);
    assert s[0] == 0xff && s[1] == TEM && s[2] == tail[0] && s[3] == tail[1];
    assert U16BE(s, 2) == n;
    hide U16BE;
    assert n <= |tail| ==> s[2 + n..] == tail[n..];
    ScanSegment(s);
    LongSegment(s);
  }

  lemma {:induction false} EncodeJoins(a: seq<Item>, b: seq<Item>)
    ensures EncodeAll(a + b) == EncodeAll(a) + EncodeAll(b)
  {
    hide Encode;
    if a == [] {
      assert a + b == b;
    } else {
      assert (a + b)[1..] == a[1..] + b;
      EncodeJoins(a[1..], b);
    }
  }

  lemma MarkerStarts(fill: nat, marker: Byte)
    ensures |Marker(fill, marker)| == fill + 2 && Marker(fill, marker)[0] == 0xff
  {
    FillIs(fill);
  }

  lemma {:induction false} FillIs(n: nat)
    ensures |Fill(n)| == n && (n > 0 ==> Fill(n)[0] == 0xff)
  {
    if n > 0 {
      FillIs(n - 1);
    }
  }

  /** Every marker comes directly behind a TEM: the standard allows nothing else there. */
  ghost predicate MarkersBehindTem(items: seq<Item>) {
    forall i :: 0 <= i < |items| - 1 && items[i].Tem? ==> !items[i + 1].Stray?
  }

  lemma StartsWithMarker(items: seq<Item>, frame: seq<Byte>)
    requires (items != [] ==> !items[0].Stray?) && |frame| >= 9 && frame[0] == 0xff
    ensures |EncodeAll(items) + frame| >= 9 && (EncodeAll(items) + frame)[0] == 0xff
  {
    hide Marker, BE16;
    if items != [] {
      var it := items[0];
      MarkerStarts(it.fill, if it.Tem? then TEM else it.marker);
      assert Encode(it)[0] == 0xff;
    }
  }

  function FirstTem(items: seq<Item>): (k: nat)
    ensures k <= |items| && NoTem(items[..k]) && (k < |items| ==> items[k].Tem?)
  {
    if items == [] || items[0].Tem? then 0
    else
      assert items[1..][..FirstTem(items[1..])] == items[..FirstTem(items[1..]) + 1][1..];
      FirstTem(items[1..]) + 1
  }

  lemma EncodedAround(items: seq<Item>, k: nat)
    requires k < |items|
    ensures EncodeAll(items) == EncodeAll(items[..k]) + (Encode(items[k]) + EncodeAll(items[k + 1..]))
  {
    hide Encode;
    assert items == items[..k] + items[k..];
    EncodeJoins(items[..k], items[k..]);
    assert items[k..][1..] == items[k + 1..];
  }

  lemma RegroupBehind(a: seq<Byte>, m: seq<Byte>, b: seq<Byte>, frame: seq<Byte>, rest: seq<Byte>)
    ensures a + (m + b) + (frame + rest) == a + (m + (b + frame + rest))
  {
  }

  /** What stands behind the first TEM. */
  function BehindTem(items: seq<Item>, frame: seq<Byte>, rest: seq<Byte>): seq<Byte>
    requires !NoTem(items)
  {
    assert items[..|items|] == items;
    EncodeAll(items[FirstTem(items) + 1..]) + frame + rest
  }

  lemma TemIsFound(items: seq<Item>)
    requires !NoTem(items)
    ensures FirstTem(items) < |items| && items[FirstTem(items)].Tem?
  {
    assert items[..|items|] == items;
  }

  lemma LayoutAroundTem(items: seq<Item>, frame: seq<Byte>, rest: seq<Byte>)
    requires !NoTem(items)
    ensures FirstTem(items) < |items|
    ensures var k := FirstTem(items);
            EncodeAll(items) + (frame + rest)
            == EncodeAll(items[..k]) + (Marker(items[k].fill, TEM) + BehindTem(items, frame, rest))
  {
    TemIsFound(items);
    var k := FirstTem(items);
    TemEncoded(items[k]);
    BehindTemIs(items, frame, rest);
    hide NoTem, FirstTem, Marker, Encode, EncodeAll, BehindTem;
    EncodedAround(items, k);
    RegroupBehind(EncodeAll(items[..k]), Encode(items[k]), EncodeAll(items[k + 1..]), frame, rest);
  }

  lemma TemEncoded(item: Item)
    requires item.Tem?
    ensures Encode(item) == Marker(item.fill, TEM)
  {
  }

  lemma BehindTemIs(items: seq<Item>, frame: seq<Byte>, rest: seq<Byte>)
    requires !NoTem(items) && FirstTem(items) < |items|
    ensures BehindTem(items, frame, rest) == EncodeAll(items[FirstTem(items) + 1..]) + frame + rest
  {
  }

  lemma ScanGoesOnBehindTem(items: seq<Item>, frame: seq<Byte>, rest: seq<Byte>)
    requires (forall i :: 0 <= i < |items| ==> WellFormed(items[i])) && !NoTem(items) && |frame| >= 9
    ensures Scan(EncodeAll(items) + (frame + rest)) == AfterTem(BehindTem(items, frame, rest))
  {
    hide WellFormed, Scan, Marker, EncodeAll, AfterTem;
    LayoutAroundTem(items, frame, rest);
    var k, left := FirstTem(items), BehindTem(items, frame, rest);
    assert |left| >= 9;
    hide BehindTem;
    ScanSkipsItems(items[..k], Marker(items[k].fill, TEM) + left);
    TemIsTakenForASegment(items[k].fill, left);
  }

  /**
   * So for every image of well-formed items: without a TEM it is read, and with one the result is what
   * the scan makes of the bytes behind the first TEM when their first two are taken for a length.
   */
  lemma JpegIsReadExactly(items: seq<Item>, fill: nat, marker: Byte, length: nat, precision: Byte,
                          height: nat, width: nat, rest: seq<Byte>)
    requires forall i :: 0 <= i < |items| ==> WellFormed(items[i])
    requires IsFrame(marker) && length < 0x1_0000 && height < 0x1_0000 && width < 0x1_0000
    ensures var frame := FrameHeader(fill, marker, length, precision, height, width);
            ParseImageHeader([0xff, 0xd8] + EncodeAll(items) + frame + rest)
            == if NoTem(items) then Ok(Header(width, height, JPEG)) else AfterTem(BehindTem(items, frame, rest))
  {
    if NoTem(items) {
      JpegRoundTrip(items, fill, marker, length, precision, height, width, rest);
    } else {
      var frame := FrameHeader(fill, marker, length, precision, height, width);
      assert |frame| >= 9;
      hide FrameHeader, EncodeAll, Scan, BehindTem, AfterTem;
      ScanGoesOnBehindTem(items, frame, rest);
      RegroupHeader([0xff, 0xd8], EncodeAll(items), frame, rest);
      Behind([0xff, 0xd8], EncodeAll(items), frame, rest);
      JpegIsScanned([0xff, 0xd8] + EncodeAll(items) + frame + rest);
    }
  }

  /** Another marker behind the TEM reads as a length of at least 0xff00, so an image with fewer bytes left is turned away. */
  lemma SmallJpegIsReadExactlyWithoutTem(items: seq<Item>, fill: nat, marker: Byte, length: nat, precision: Byte,
                                         height: nat, width: nat, rest: seq<Byte>)
    requires (forall i :: 0 <= i < |items| ==> WellFormed(items[i])) && MarkersBehindTem(items)
    requires IsFrame(marker) && length < 0x1_0000 && height < 0x1_0000 && width < 0x1_0000
    requires !NoTem(items) ==>
               |BehindTem(items, FrameHeader(fill, marker, length, precision, height, width), rest)| < 0xff00
    ensures var frame := FrameHeader(fill, marker, length, precision, height, width);
            ParseImageHeader([0xff, 0xd8] + EncodeAll(items) + frame + rest)
            == if NoTem(items) then Ok(Header(width, height, JPEG)) else Err(Unsupported)
  {
    JpegIsReadExactly(items, fill, marker, length, precision, height, width, rest);
    var frame := FrameHeader(fill, marker, length, precision, height, width);
    assert items[..|items|] == items;
    MarkerStarts(fill, marker);
    assert |frame| >= 9 && frame[0] == 0xff;
    if !NoTem(items) {
      hide FrameHeader, EncodeAll, Scan, Marker;
      MarkerIsBehindTem(items, frame, rest);
    }
  }

  lemma MarkerIsBehindTem(items: seq<Item>, frame: seq<Byte>, rest: seq<Byte>)
    requires !NoTem(items) && MarkersBehindTem(items) && |frame| >= 9 && frame[0] == 0xff
    ensures var left := BehindTem(items, frame, rest); |left| >= 9 && left[0] == 0xff
  {
    assert items[..|items|] == items;
    var k := FirstTem(items);
    StartsWithMarker(items[k + 1..], frame);
    hide EncodeAll;
    assert BehindTem(items, frame, rest)[0] == (EncodeAll(items[k + 1..]) + frame)[0];
  }

  // ----- GIF -----

  /** A GIF of either version is read as its logical screen size. */
  lemma GifRoundTrip(signature: seq<Byte>, width: nat, height: nat, rest: seq<Byte>)
    requires signature in {Ascii("GIF87a"), Ascii("GIF89a")} && width < 0x1_0000 && height < 0x1_0000
    ensures ParseImageHeader(signature + LE16(width) + LE16(height) + rest) == Ok(Header(width, height, GIF))
  {
    var b := signature + LE16(width) + LE16(height) + rest;
    ReadsBack(signature, width, LE16(height) + rest);
    ReadsBack(signature + LE16(width), height, rest);
    assert b == signature + LE16(width) + (LE16(height) + rest) == (signature + LE16(width)) + LE16(height) + rest;
    assert forall i :: 0 <= i < 6 ==> b[i] == signature[i];
    GifSignature(b, signature);
    hide LE16, U16LE, Ascii, IsGif, IsPng, IsWebp, IsJpeg;
  }

  lemma GifSignature(b: seq<Byte>, signature: seq<Byte>)
    requires |b| >= 10 && signature in {Ascii("GIF87a"), Ascii("GIF89a")} && forall i :: 0 <= i < 6 ==> b[i] == signature[i]
    ensures IsGif(b) && !IsPng(b)
  {
    assert signature[0] == 'G' as int && signature[1] == 'I' as int && signature[2] == 'F' as int && signature[3] == '8' as int;
    assert signature[5] == 'a' as int && (signature[4] == '7' as int || signature[4] == '9' as int);
    assert |b| >= 24 ==> b[..8][0] == b[0];
  }

  /** Only bytes that begin as one of the four formats do are read at all, and of WebP only its three kinds of chunk. */
  lemma OnlyFourFormats(b: seq<Byte>)
    requires !(|b| >= 24 && b[..8] == [0x89] + Ascii("PNG") + [13, 10, 26, 10])
    requires !(|b| >= 10 && (b[..6] == Ascii("GIF87a") || b[..6] == Ascii("GIF89a")))
    requires |b| >= 30 && b[..4] == Ascii("RIFF") && b[8..12] == Ascii("WEBP") ==>
               b[12..16] !in {Ascii("VP8 "), Ascii("VP8L"), Ascii("VP8X")}
    requires !(|b| >= 4 && b[..2] == [0xff, 0xd8])
    ensures ParseImageHeader(b) == Err(Unsupported)
  {
    KindsAre();
    GifStarts(b);
    JpegStarts(b);
    assert Ascii("RIFF") == [0x52, 0x49, 0x46, 0x46] && Ascii("WEBP") == [0x57, 0x45, 0x42, 0x50];
    ChunksAre();
    hide Scan, Ascii, IsGif, IsJpeg;
  }

  lemma ChunksAre()
    ensures Ascii("VP8 ") == [86, 80, 56, 32] && Ascii("VP8L") == [86, 80, 56, 76] && Ascii("VP8X") == [86, 80, 56, 88]
  {
  }

  lemma GifStarts(b: seq<Byte>)
    ensures IsGif(b) ==> |b| >= 10 && (b[..6] == Ascii("GIF87a") || b[..6] == Ascii("GIF89a"))
  {
    if IsGif(b) {
      assert b[..4][0] == b[0] && b[..4][1] == b[1] && b[..4][2] == b[2] && b[..4][3] == b[3];
      assert b[..6] == if b[4] == 0x37 then Ascii("GIF87a") else Ascii("GIF89a");
    }
  }

  lemma JpegStarts(b: seq<Byte>)
    ensures IsJpeg(b) ==> |b| >= 4 && b[..2] == [0xff, 0xd8]
  {
  }

  // ----- WebP, RFC 9649 -----

  function Riff(size: nat, fourCC: seq<Byte>, chunkSize: nat, payload: seq<Byte>): seq<Byte> {
    [0x52, 0x49, 0x46, 0x46] + LE32(size) + [0x57, 0x45, 0x42, 0x50] + fourCC + LE32(chunkSize) + payload
  }

  /** Section 3.4: a signature byte, then 14 bits of width - 1, 14 of height - 1, one of alpha and three of version. */
  function LosslessPayload(width: nat, height: nat, alpha: nat, version: nat, data: seq<Byte>): seq<Byte>
    requires 1 <= width && 1 <= height
  {
    [0x2f] + LE32((width - 1) + (height - 1) * 0x4000 + alpha * 0x1000_0000 + version * 0x2000_0000) + data
  }

  /** Section 2.7: flags, reserved bytes, then 24 bits each of canvas width - 1 and height - 1. */
  function ExtendedPayload(flags: Byte, reserved: nat, width: nat, height: nat, data: seq<Byte>): seq<Byte>
    requires 1 <= width && 1 <= height
  {
    [flags] + LE24(reserved) + LE24(width - 1) + LE24(height - 1) + data
  }

  /** Section 2.5 and RFC 6386: frame tag and start code, then 14 bits of each dimension under two bits of scale. */
  function LossyPayload(tag: seq<Byte>, width: nat, xScale: nat, height: nat, yScale: nat, data: seq<Byte>): seq<Byte>
  {
    tag + [0x9d, 0x01, 0x2a] + LE16(width + xScale * 0x4000) + LE16(height + yScale * 0x4000) + data
  }

  /** The packed fields unpack to the original dimensions, the sign bit of the packed word notwithstanding. */
  lemma LosslessUnpacks(w: nat, h: nat, alpha: nat, version: nat)
    requires w < 0x4000 && h < 0x4000 && alpha < 2 && version < 8
    ensures var bits := ToInt32(w + h * 0x4000 + alpha * 0x1000_0000 + version * 0x2000_0000);
            bits % 0x4000 == w && ShiftRightSigned(bits, 14) % 0x4000 == h
  {
    var high := alpha + 2 * version;
    var signed := if high >= 8 then high - 16 else high;
    var bits := ToInt32(w + h * 0x4000 + alpha * 0x1000_0000 + version * 0x2000_0000);
    assert bits == w + (h + signed * 0x4000) * 0x4000;
    hide ToInt32, ShiftRightSigned;
    ShiftIsDivision(bits);
    SplitOff(w, h + signed * 0x4000);
    SplitOff(h, signed);
  }

  lemma SplitOff(low: nat, high: int)
    requires low < 0x4000
    ensures (low + high * 0x4000) % 0x4000 == low && (low + high * 0x4000) / 0x4000 == high
  {
  }

  lemma ShiftIsDivision(x: int)
    ensures ShiftRightSigned(x, 14) == x / 0x4000
  {
  }

  lemma RiffLayout(size: nat, fourCC: seq<Byte>, chunkSize: nat, payload: seq<Byte>)
    requires |fourCC| == 4
    ensures var b := Riff(size, fourCC, chunkSize, payload);
            && |b| == 20 + |payload| && b[20..] == payload && b[12..16] == fourCC
            && !IsPng(b) && !IsGif(b) && !IsJpeg(b) && (IsWebp(b) <==> |b| >= 30)
  {
    hide Digit256;
    var b := Riff(size, fourCC, chunkSize, payload);
    assert b[..4] == [0x52, 0x49, 0x46, 0x46] && b[8..12] == [0x57, 0x45, 0x42, 0x50];
    assert |b| >= 24 ==> b[..8][0] == 0x52;
  }

  lemma FieldsOf(b: seq<Byte>, payload: seq<Byte>)
    requires |b| >= 20 && b[20..] == payload
    ensures forall i :: 0 <= i < |payload| ==> b[20 + i] == payload[i]
  {
  }

  /** A lossless file is read exactly when it is at least 30 bytes long; valid shorter ones are turned away. */
  lemma LosslessRoundTrip(size: nat, chunkSize: nat, w: nat, h: nat, alpha: nat, version: nat, data: seq<Byte>)
    requires 1 <= w <= 0x4000 && 1 <= h <= 0x4000 && alpha < 2 && version < 8
    ensures var b := Riff(size, [86, 80, 56, 76], chunkSize, LosslessPayload(w, h, alpha, version, data));
            ParseImageHeader(b) == if |data| >= 5 then Ok(Header(w, h, WEBP)) else Err(Unsupported)
  {
    var bits := (w - 1) + (h - 1) * 0x4000 + alpha * 0x1000_0000 + version * 0x2000_0000;
    var payload := LosslessPayload(w, h, alpha, version, data);
    var b := Riff(size, [86, 80, 56, 76], chunkSize, payload);
    RiffLayout(size, [86, 80, 56, 76], chunkSize, payload);
    DigitsMakeNumber(bits);
    LosslessUnpacks(w - 1, h - 1, alpha, version);
    FieldsOf(b, payload);
    hide Digit256, ToInt32, ShiftRightSigned, Riff, IsPng, IsGif, IsJpeg, IsWebp;
    assert |payload| == 5 + |data|;
    assert b[20 + 1] == Digit256(bits, 0) && b[20 + 2] == Digit256(bits, 1);
    assert b[20 + 3] == Digit256(bits, 2) && b[20 + 4] == Digit256(bits, 3);
  }

  lemma ExtendedRoundTrip(size: nat, chunkSize: nat, flags: Byte, reserved: nat, w: nat, h: nat, data: seq<Byte>)
    requires 1 <= w <= 0x100_0000 && 1 <= h <= 0x100_0000
    ensures var b := Riff(size, [86, 80, 56, 88], chunkSize, ExtendedPayload(flags, reserved, w, h, data));
            ParseImageHeader(b) == Ok(Header(w, h, WEBP))
  {
    var payload := ExtendedPayload(flags, reserved, w, h, data);
    var b := Riff(size, [86, 80, 56, 88], chunkSize, payload);
    RiffLayout(size, [86, 80, 56, 88], chunkSize, payload);
    DigitsMakeNumber(w - 1);
    DigitsMakeNumber(h - 1);
    FieldsOf(b, payload);
    hide Digit256, Riff, IsPng, IsGif, IsJpeg, IsWebp;
    assert |payload| == 10 + |data|;
    assert b[20 + 4] == Digit256(w - 1, 0) && b[20 + 5] == Digit256(w - 1, 1) && b[20 + 6] == Digit256(w - 1, 2);
    assert b[20 + 7] == Digit256(h - 1, 0) && b[20 + 8] == Digit256(h - 1, 1) && b[20 + 9] == Digit256(h - 1, 2);
  }

  lemma LossyRoundTrip(size: nat, chunkSize: nat, tag: seq<Byte>, w: nat, xScale: nat, h: nat, yScale: nat, data: seq<Byte>)
    requires |tag| == 3 && w < 0x4000 && h < 0x4000 && xScale < 4 && yScale < 4
    ensures var b := Riff(size, [86, 80, 56, 32], chunkSize, LossyPayload(tag, w, xScale, h, yScale, data));
            ParseImageHeader(b) == Ok(Header(w, h, WEBP))
  {
    var x, y := w + xScale * 0x4000, h + yScale * 0x4000;
    var payload := LossyPayload(tag, w, xScale, h, yScale, data);
    var b := Riff(size, [86, 80, 56, 32], chunkSize, payload);
    RiffLayout(size, [86, 80, 56, 32], chunkSize, payload);
    DigitsMakeNumber(x);
    DigitsMakeNumber(y);
    SplitOff(w, xScale);
    SplitOff(h, yScale);
    FieldsOf(b, payload);
    hide Digit256, Riff, IsPng, IsGif, IsJpeg, IsWebp;
    assert |payload| == 10 + |data|;
    assert b[20 + 6] == Digit256(x, 0) && b[20 + 7] == Digit256(x, 1);
    assert b[20 + 8] == Digit256(y, 0) && b[20 + 9] == Digit256(y, 1);
  }
}
