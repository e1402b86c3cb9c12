// EXR files as the writer lays them out: scalars, attributes, the header, the line offset table and the
// scan line blocks, with the sizes and offsets computed ahead of writing.
module ExrFormat {
  import DivMod

  type byte = n: nat | n < 256

  const MAGIC: nat := 20000630
  const VERSION: nat := 2
  const LONG_NAMES_FLAG: nat := 0x400
  const HALF_PIXEL_TYPE: nat := 1
  const INCREASING_Y: nat := 0
  const NO_COMPRESSION: nat := 0
  const WRAP32: nat := 0x1_0000_0000
  const WRAP64: nat := 0x1_0000_0000_0000_0000

  // ---- Scalars, little-endian ----

  function Little(v: nat, n: nat): (bs: seq<byte>)
    ensures |bs| == n
  {
    if n == 0 then [] else [v % 256] + Little(v / 256, n - 1)
  }

  function Value(bs: seq<byte>): nat {
    if bs == [] then 0 else bs[0] + 256 * Value(bs[1..])
  }

  function Range(n: nat): nat {
    if n == 0 then 1 else 256 * Range(n - 1)
  }

  lemma {:induction false} LittleBack(v: nat, n: nat)
    ensures v < Range(n) ==> Value(Little(v, n)) == v
  {
    if n > 0 {
      var bs := Little(v, n);
      assert bs[1..] == Little(v / 256, n - 1);
      LittleBack(v / 256, n - 1);
    }
  }

  lemma {:induction false} ValueBounded(bs: seq<byte>)
    ensures Value(bs) < Range(|bs|)
  {
    if bs != [] { ValueBounded(bs[1..]); }
  }

  lemma Ranges()
    ensures Range(1) == 256 && Range(2) == 0x1_0000 && Range(4) == WRAP32 && Range(8) == WRAP64
  {
    assert Range(3) == 0x100_0000;
    assert Range(5) == 0x100_0000_0000;
    assert Range(6) == 0x1_0000_0000_0000;
    assert Range(7) == 0x100_0000_0000_0000;
  }

  // static_cast<int32_t>, as the 32 bits that are stored.
  function Bits32(x: int): (v: nat)
    ensures v < WRAP32
  {
    x % WRAP32
  }

  function Signed32(v: nat): int {
    if v < 0x8000_0000 then v else v - WRAP32
  }

  lemma Signed32Back(x: int)
    requires -0x8000_0000 <= x < 0x8000_0000
    ensures Signed32(Bits32(x)) == x
  {
  }

  // ---- Attributes ----

  datatype Box2i = Box2i(minX: int, minY: int, maxX: int, maxY: int)

  // Floating point values are their bit patterns.
  datatype AttributeValue =
    | ChannelList(names: seq<seq<byte>>)
    | Byte(b: byte)
    | Box(box: Box2i)
    | Float(bits: nat)
    | V2f(x: nat, y: nat)

  datatype Attribute = Attribute(name: seq<byte>, kind: seq<byte>, value: AttributeValue)

  function Ascii(s: string): (bs: seq<byte>)
    requires forall i :: 0 <= i < |s| ==> s[i] as int < 256
    ensures |bs| == |s| && forall i :: 0 <= i < |s| ==> bs[i] == s[i] as int
  {
    seq(|s|, i requires 0 <= i < |s| => s[i] as int)
  }

  function StringBytes(s: seq<byte>): seq<byte> {
    s + [0]
  }

  // Pixel type, four zero bytes, and a sampling of one in each direction.
  function ChannelTail(): (bs: seq<byte>)
    ensures |bs| == 16
  {
    Little(HALF_PIXEL_TYPE, 4) + [0, 0, 0, 0] + Little(1, 4) + Little(1, 4)
  }

  function ChannelBytes(names: seq<seq<byte>>): seq<byte> {
    if names == [] then [0] else StringBytes(names[0]) + ChannelTail() + ChannelBytes(names[1..])
  }

  function BoxBytes(b: Box2i): seq<byte> {
    Little(Bits32(b.minX), 4) + Little(Bits32(b.minY), 4) + Little(Bits32(b.maxX), 4) + Little(Bits32(b.maxY), 4)
  }

  function ValueBytes(v: AttributeValue): seq<byte> {
    match v
    case ChannelList(names) => ChannelBytes(names)
    case Byte(b) => [b]
    case Box(box) => BoxBytes(box)
    case Float(bits) => Little(bits, 4)
    case V2f(x, y) => Little(x, 4) + Little(y, 4)
  }

  function AttributeBytes(a: Attribute): seq<byte> {
    StringBytes(a.name) + StringBytes(a.kind) + Little(Bits32(ValueSize(a.value)), 4) + ValueBytes(a.value)
  }

  function HeaderBytes(header: seq<Attribute>): seq<byte> {
    if header == [] then [0] else AttributeBytes(header[0]) + HeaderBytes(header[1..])
  }

  // ---- Sizes computed ahead of writing ----

  function StringSize(s: seq<byte>): nat {
    |s| + 1
  }

  function ChannelEntrySize(name: seq<byte>): nat {
    StringSize(name) + 4 + 4 * 1 + 2 * 4
  }

  function ChannelListSize(names: seq<seq<byte>>): nat {
    if names == [] then 1 else ChannelListSize(names[..|names| - 1]) + ChannelEntrySize(names[|names| - 1])
  }

  function ValueSize(v: AttributeValue): nat {
    match v
    case ChannelList(names) => ChannelListSize(names)
    case Byte(_) => 1
    case Box(_) => 16
    case Float(_) => 4
    case V2f(_, _) => 8
  }

  function AttributeSize(a: Attribute): nat {
    StringSize(a.name) + StringSize(a.kind) + 4 + ValueSize(a.value)
  }

  // The terminating byte, then the attributes in order, as the loop adds them up.
  function HeaderSize(header: seq<Attribute>): nat {
    if header == [] then 1 else HeaderSize(header[..|header| - 1]) + AttributeSize(header[|header| - 1])
  }

  lemma {:induction false} ChannelListSizeFirst(names: seq<seq<byte>>)
    requires names != []
    ensures ChannelListSize(names) == ChannelEntrySize(names[0]) + ChannelListSize(names[1..])
    decreases |names|
  {
    if |names| > 1 {
      ChannelListSizeFirst(names[..|names| - 1]);
      assert names[..|names| - 1][1..] == names[1..][..|names| - 2];
    }
  }

  lemma {:induction false} ChannelListSizeIs(names: seq<seq<byte>>)
    ensures |ChannelBytes(names)| == ChannelListSize(names)
    decreases |names|
  {
    if names != [] {
      ChannelListSizeIs(names[1..]);
      ChannelListSizeFirst(names);
    }
  }

  lemma ValueSizeIs(v: AttributeValue)
    ensures |ValueBytes(v)| == ValueSize(v)
  {
    match v
    case ChannelList(names) => ChannelListSizeIs(names);
    case _ =>
  }

  lemma AttributeSizeIs(a: Attribute)
    ensures |AttributeBytes(a)| == AttributeSize(a)
  {
    ValueSizeIs(a.value);
  }

  lemma {:induction false} HeaderSizeFirst(header: seq<Attribute>)
    requires header != []
    ensures HeaderSize(header) == AttributeSize(header[0]) + HeaderSize(header[1..])
    decreases |header|
  {
    if |header| > 1 {
      HeaderSizeFirst(header[..|header| - 1]);
      assert header[..|header| - 1][1..] == header[1..][..|header| - 2];
    }
  }

  // The computed size of any header is the number of bytes it is written in.
  lemma {:induction false} HeaderSizeIs(header: seq<Attribute>)
    ensures |HeaderBytes(header)| == HeaderSize(header)
    decreases |header|
  {
    hide AttributeBytes, AttributeSize;
    if header != [] {
      AttributeSizeIs(header[0]);
      HeaderSizeIs(header[1..]);
      HeaderSizeFirst(header);
    }
  }

  // ---- The file ----

  function Bounds(width: nat, height: nat): Box2i {
    Box2i(0, 0, Signed32(Bits32(width - 1)), Signed32(Bits32(height - 1)))
  }

  const CHANNEL_NAMES: seq<seq<byte>> := [[65], [66], [71], [82]]   // A, B, G, R
  const ONE_BITS: nat := 0x3F80_0000                                // 1.0 in binary32

  // Attribute names and types, as bytes.
  function Name(a: HeaderName): seq<byte> {
    match a
    case Channels => Ascii("channels")
    case Compression => Ascii("compression")
    case DataWindow => Ascii("dataWindow")
    case DisplayWindow => Ascii("displayWindow")
    case LineOrder => Ascii("lineOrder")
    case PixelAspectRatio => Ascii("pixelAspectRatio")
    case ScreenWindowCenter => Ascii("screenWindowCenter")
    case ScreenWindowWidth => Ascii("screenWindowWidth")
  }

  function Kind(a: HeaderName): seq<byte> {
    match a
    case Channels => Ascii("chlist")
    case Compression => Ascii("compression")
    case DataWindow => Ascii("box2i")
    case DisplayWindow => Ascii("box2i")
    case LineOrder => Ascii("lineOrder")
    case PixelAspectRatio => Ascii("float")
    case ScreenWindowCenter => Ascii("v2f")
    case ScreenWindowWidth => Ascii("float")
  }

  datatype HeaderName =
    Channels | Compression | DataWindow | DisplayWindow | LineOrder | PixelAspectRatio | ScreenWindowCenter
      | ScreenWindowWidth

  function Entry(a: HeaderName, value: AttributeValue): Attribute {
    Attribute(Name(a), Kind(a), value)
  }

  function Header(width: nat, height: nat): seq<Attribute> {
    [ Entry(Channels, ChannelList(CHANNEL_NAMES)),
      Entry(Compression, Byte(NO_COMPRESSION)),
      Entry(DataWindow, Box(Bounds(width, height))),
      Entry(DisplayWindow, Box(Bounds(width, height))),
      Entry(LineOrder, Byte(INCREASING_Y)),
      Entry(PixelAspectRatio, Float(ONE_BITS)),
      Entry(ScreenWindowCenter, V2f(0, 0)),
      Entry(ScreenWindowWidth, Float(ONE_BITS)) ]
  }

  datatype ScanLineLayout = ScanLineLayout(blockSize: nat, pixelDataOffset: nat) {
    function Offset(y: nat): nat {
      pixelDataOffset + Blocks(y, blockSize)
    }
  }

  // y * size, without multiplication.
  function Blocks(y: nat, size: nat): nat {
    if y == 0 then 0 else Blocks(y - 1, size) + size
  }

  lemma {:induction false} BlocksIsProduct(y: nat, size: nat)
    ensures Blocks(y, size) == y * size
  {
    if y > 0 {
      BlocksIsProduct(y - 1, size);
      DivMod.Distribute(size, y - 1, 1);
    }
  }

  lemma {:induction false} BlocksMonotone(y: nat, z: nat, size: nat)
    requires y <= z
    ensures Blocks(y, size) <= Blocks(z, size)
    decreases z
  {
    if y < z { BlocksMonotone(y, z - 1, size); }
  }

  function BuildScanLineLayout(width: nat, height: nat, header: seq<Attribute>): ScanLineLayout {
    ScanLineLayout(8 + 8 * width, 8 + HeaderSize(header) + 8 * height)
  }

  function OffsetTable(layout: ScanLineLayout, height: nat): seq<byte> {
    if height == 0 then [] else OffsetTable(layout, height - 1) + Little(layout.Offset(height - 1) % WRAP64, 8)
  }

  lemma {:induction false} OffsetTableSize(layout: ScanLineLayout, height: nat)
    ensures |OffsetTable(layout, height)| == 8 * height
  {
    if height > 0 { OffsetTableSize(layout, height - 1); }
  }

  // The plane of one channel: binary16 values of all pixels of a row in order.
  function Plane(row: seq<nat>, channel: nat, n: nat): (bs: seq<byte>)
    requires channel < 4 && 4 * n <= |row|
    ensures |bs| == 2 * n
  {
    if n == 0 then [] else Plane(row, channel, n - 1) + Little(row[4 * (n - 1) + channel], 2)
  }

  // A scan line block: line number, size, then the planes of alpha, blue, green and red.
  function Scanline(y: nat, width: nat, row: seq<nat>): (bs: seq<byte>)
    requires |row| == 4 * width
    ensures |bs| == 8 + 8 * width
  {
    Little(Bits32(y), 4) + Little(Bits32(8 * width), 4)
    + Plane(row, 3, width) + Plane(row, 2, width) + Plane(row, 1, width) + Plane(row, 0, width)
  }

  // The rows of an image as binary16 values, four per pixel.
  predicate Rows(rows: seq<seq<nat>>, width: nat) {
    forall y :: 0 <= y < |rows| ==> |rows[y]| == 4 * width && forall i :: 0 <= i < 4 * width ==> rows[y][i] < 0x1_0000
  }

  function Scanlines(rows: seq<seq<nat>>, width: nat, n: nat): seq<byte>
    requires Rows(rows, width) && n <= |rows|
  {
    if n == 0 then [] else Scanlines(rows, width, n - 1) + Scanline(n - 1, width, rows[n - 1])
  }

  lemma {:induction false} ScanlinesSize(rows: seq<seq<nat>>, width: nat, n: nat)
    requires Rows(rows, width) && n <= |rows|
    ensures |Scanlines(rows, width, n)| == Blocks(n, 8 + 8 * width)
  {
    if n > 0 { ScanlinesSize(rows, width, n - 1); }
  }

  function Preamble(width: nat, height: nat): seq<byte> {
    var header := Header(width, height);
    Little(MAGIC, 4) + Little(VERSION, 4) + HeaderBytes(header)
    + OffsetTable(BuildScanLineLayout(width, height, header), height)
  }

  function File(width: nat, rows: seq<seq<nat>>): seq<byte>
    requires Rows(rows, width)
  {
    Preamble(width, |rows|) + Scanlines(rows, width, |rows|)
  }

  // ---- Offsets are where things are ----

  ghost predicate At(data: seq<byte>, pos: nat, bs: seq<byte>) {
    pos + |bs| <= |data| && data[pos..pos + |bs|] == bs
  }

  lemma AtParts(data: seq<byte>, pos: nat, a: seq<byte>, b: seq<byte>)
    requires At(data, pos, a + b)
    ensures At(data, pos, a) && At(data, pos + |a|, b)
  {
    assert data[pos..pos + |a + b|][..|a|] == a;
    assert data[pos..pos + |a + b|][|a|..] == b;
  }

  lemma PreambleSize(width: nat, height: nat)
    ensures |Preamble(width, height)| == BuildScanLineLayout(width, height, Header(width, height)).pixelDataOffset
  {
    hide Header, HeaderSize, HeaderBytes;
    var header := Header(width, height);
    HeaderSizeIs(header);
    OffsetTableSize(BuildScanLineLayout(width, height, header), height);
  }

  lemma {:induction false} ScanlineInside(rows: seq<seq<nat>>, width: nat, n: nat, y: nat)
    requires Rows(rows, width) && y < n <= |rows|
    ensures At(Scanlines(rows, width, n), Blocks(y, 8 + 8 * width), Scanline(y, width, rows[y]))
    decreases n
  {
    hide Scanline;
    var front := Scanlines(rows, width, n - 1);
    ScanlinesSize(rows, width, n - 1);
    if y == n - 1 {
      assert Scanlines(rows, width, n)[|front|..] == Scanline(y, width, rows[y]);
    } else {
      ScanlineInside(rows, width, n - 1, y);
      var at, size := Blocks(y, 8 + 8 * width), |Scanline(y, width, rows[y])|;
      assert Scanlines(rows, width, n)[at..at + size] == front[at..at + size];
    }
  }

  // Every scan line block stands where the layout puts it.
  lemma ScanlineAtOffset(width: nat, rows: seq<seq<nat>>, y: nat)
    requires Rows(rows, width) && y < |rows|
    ensures At(File(width, rows), BuildScanLineLayout(width, |rows|, Header(width, |rows|)).Offset(y),
               Scanline(y, width, rows[y]))
  {
    hide Preamble, Scanline, Scanlines, Header, HeaderSize, Blocks;
    PreambleSize(width, |rows|);
    ScanlineInside(rows, width, |rows|, y);
    var p, at, bs := Preamble(width, |rows|), Blocks(y, 8 + 8 * width), Scanline(y, width, rows[y]);
    var all := Scanlines(rows, width, |rows|);
    assert (p + all)[|p| + at..|p| + at + |bs|] == all[at..at + |bs|];
  }

  lemma {:induction false} OffsetInside(layout: ScanLineLayout, n: nat, y: nat)
    requires y < n
    ensures At(OffsetTable(layout, n), 8 * y, Little(layout.Offset(y) % WRAP64, 8))
    decreases n
  {
    hide Little, Blocks;
    var front := OffsetTable(layout, n - 1);
    OffsetTableSize(layout, n - 1);
    if y < n - 1 {
      OffsetInside(layout, n - 1, y);
      assert OffsetTable(layout, n)[8 * y..8 * y + 8] == front[8 * y..8 * y + 8];
    } else {
      assert OffsetTable(layout, n)[8 * y..8 * y + 8] == Little(layout.Offset(y) % WRAP64, 8);
    }
  }

  // The size of the whole file.
  lemma FileSize(width: nat, rows: seq<seq<nat>>)
    requires Rows(rows, width)
    ensures |File(width, rows)| == BuildScanLineLayout(width, |rows|, Header(width, |rows|)).Offset(|rows|)
  {
    hide Preamble, Header, HeaderSize;
    PreambleSize(width, |rows|);
    ScanlinesSize(rows, width, |rows|);
  }

  // ---- The bytes themselves ----

  // The four bytes of a 32-bit scalar, lowest first.
  function Digits(v: nat): (bs: seq<byte>)
    ensures |bs| == 4
  {
    [v % 256, v / 256 % 256, v / 0x1_0000 % 256, v / 0x100_0000 % 256]
  }

  lemma LittleFour(v: nat)
    ensures Little(v, 4) == Digits(v)
  {
    assert v / 256 / 256 == v / 0x1_0000 && v / 0x1_0000 / 256 == v / 0x100_0000;
    assert Little(v / 0x100_0000, 1) == [v / 0x100_0000 % 256];
    assert Little(v / 0x1_0000, 2) == [v / 0x1_0000 % 256] + Little(v / 0x100_0000, 1);
    assert Little(v / 256, 3) == [v / 256 % 256] + Little(v / 0x1_0000, 2);
    assert Little(v, 4) == [v % 256] + Little(v / 256, 3);
  }

  // A channel: its letter, half precision, no flags, and a sampling of one.
  function WrittenChannel(letter: byte): (bs: seq<byte>)
    ensures |bs| == 18
  {
    [letter, 0, 1, 0, 0, 0, 0, 0, 0, 0, 1, 0, 0, 0, 1, 0, 0, 0]
  }

  lemma ChannelWritten(letter: byte)
    ensures StringBytes([letter]) + ChannelTail() == WrittenChannel(letter)
  {
    LittleFour(1);
  }

  lemma ChannelsWritten()
    ensures ChannelBytes(CHANNEL_NAMES) ==
            WrittenChannel(0x41) + WrittenChannel(0x42) + WrittenChannel(0x47) + WrittenChannel(0x52) + [0]
  {
    hide ChannelTail, WrittenChannel, StringBytes;
    ChannelWritten(0x41);
    ChannelWritten(0x42);
    ChannelWritten(0x47);
    ChannelWritten(0x52);
    assert CHANNEL_NAMES[1..] == [[0x42], [0x47], [0x52]] && [[0x42], [0x47], [0x52]][1..] == [[0x47], [0x52]];
    assert [[0x47], [0x52]][1..] == [[0x52]] && [[0x52]][1..] == [];
    assert ChannelBytes([[0x52]]) == WrittenChannel(0x52) + [0];
    assert ChannelBytes([[0x47], [0x52]]) == WrittenChannel(0x47) + (WrittenChannel(0x52) + [0]);
    assert ChannelBytes([[0x42], [0x47], [0x52]]) == WrittenChannel(0x42) + ChannelBytes([[0x47], [0x52]]);
  }

  // The name and the type of an attribute, each followed by a zero.
  function WrittenTitle(a: HeaderName): seq<byte> {
    match a
    case Channels => Ascii("channels") + [0] + (Ascii("chlist") + [0])
    case Compression => Ascii("compression") + [0] + (Ascii("compression") + [0])
    case DataWindow => Ascii("dataWindow") + [0] + (Ascii("box2i") + [0])
    case DisplayWindow => Ascii("displayWindow") + [0] + (Ascii("box2i") + [0])
    case LineOrder => Ascii("lineOrder") + [0] + (Ascii("lineOrder") + [0])
    case PixelAspectRatio => Ascii("pixelAspectRatio") + [0] + (Ascii("float") + [0])
    case ScreenWindowCenter => Ascii("screenWindowCenter") + [0] + (Ascii("v2f") + [0])
    case ScreenWindowWidth => Ascii("screenWindowWidth") + [0] + (Ascii("float") + [0])
  }

  function WrittenValue(a: HeaderName, width: nat, height: nat): seq<byte>
    requires 0 < width && 0 < height
  {
    match a
    case Channels => WrittenChannel(0x41) + WrittenChannel(0x42) + WrittenChannel(0x47) + WrittenChannel(0x52) + [0]
    case Compression => [0]
    case DataWindow => Digits(0) + Digits(0) + Digits(width - 1) + Digits(height - 1)
    case DisplayWindow => Digits(0) + Digits(0) + Digits(width - 1) + Digits(height - 1)
    case LineOrder => [0]
    case PixelAspectRatio => [0, 0, 0x80, 0x3F]
    case ScreenWindowCenter => Digits(0) + Digits(0)
    case ScreenWindowWidth => [0, 0, 0x80, 0x3F]
  }

  // The attributes of a header, in order.
  const ORDER := [Channels, Compression, DataWindow, DisplayWindow, LineOrder, PixelAspectRatio, ScreenWindowCenter,
                  ScreenWindowWidth]

  lemma TitleWritten(k: nat, width: nat, height: nat)
    requires k < 8
    ensures var a := Header(width, height)[k]; StringBytes(a.name) + StringBytes(a.kind) == WrittenTitle(ORDER[k])
  {
    hide Bounds, Ascii;
  }

  lemma Stored32(v: nat)
    requires v < WRAP32
    ensures Bits32(Signed32(Bits32(v))) == v
  {
  }

  lemma CornersWritten(width: nat, height: nat)
    requires 0 < width <= WRAP32 && 0 < height <= WRAP32
    ensures BoxBytes(Bounds(width, height)) == Digits(0) + Digits(0) + Digits(width - 1) + Digits(height - 1)
  {
    hide Little, Digits, Bits32, Signed32;
    LittleFour(0);
    LittleFour(width - 1);
    LittleFour(height - 1);
    Stored32(0);
    Stored32(width - 1);
    Stored32(height - 1);
    StoredZero();
  }

  lemma StoredZero()
    ensures Bits32(0) == 0
  {
  }

  lemma OneWritten()
    ensures Little(ONE_BITS, 4) == [0, 0, 0x80, 0x3F]
  {
    LittleFour(ONE_BITS);
  }

  lemma PayloadWritten(k: nat, width: nat, height: nat)
    requires k < 8 && 0 < width <= WRAP32 && 0 < height <= WRAP32
    ensures ValueBytes(Header(width, height)[k].value) == WrittenValue(ORDER[k], width, height)
  {
    hide Little, Digits, BoxBytes, Bounds, Name, Kind, ChannelBytes, WrittenChannel;
    LittleFour(0);
    CornersWritten(width, height);
    ChannelsWritten();
    OneWritten();
  }

  // Every file begins with the magic number and the version.
  lemma FileBegins(width: nat, height: nat)
    ensures [0x76, 0x2F, 0x31, 0x01, 2, 0, 0, 0] <= Preamble(width, height)
  {
    LittleFour(MAGIC);
    LittleFour(VERSION);
    assert Little(MAGIC, 4) + Little(VERSION, 4) == [0x76, 0x2F, 0x31, 0x01, 2, 0, 0, 0];
  }

  lemma PayloadSmall(a: HeaderName, width: nat, height: nat)
    requires 0 < width && 0 < height
    ensures |WrittenValue(a, width, height)| < 256
  {
  }

  // An attribute is its name and type in letters, its size in four bytes, and its value.
  lemma AttributeWritten(k: nat, width: nat, height: nat)
    requires k < 8 && 0 < width <= WRAP32 && 0 < height <= WRAP32
    ensures |Header(width, height)| == 8
    ensures var payload := WrittenValue(ORDER[k], width, height);
            AttributeBytes(Header(width, height)[k]) == WrittenTitle(ORDER[k]) + [|payload|, 0, 0, 0] + payload
  {
    hide WrittenValue, WrittenTitle, ValueBytes, ValueSize, StringBytes, Little, Digits, Bounds, Name, Kind;
    TitleWritten(k, width, height);
    PayloadWritten(k, width, height);
    var a := Header(width, height)[k];
    ValueSizeIs(a.value);
    PayloadSmall(ORDER[k], width, height);
    SmallDigits(ValueSize(a.value));
  }

  lemma SmallDigits(n: nat)
    requires n < 256
    ensures Little(Bits32(n), 4) == [n, 0, 0, 0]
  {
    hide Little;
    LittleFour(n);
    assert Digits(n) == [n, 0, 0, 0];
  }

  lemma {:induction false} PlaneAt(row: seq<nat>, channel: nat, n: nat, x: nat)
    requires channel < 4 && 4 * n <= |row| && x < n
    ensures Plane(row, channel, n)[2 * x..2 * x + 2] == Little(row[4 * x + channel], 2)
  {
    hide Little;
    if x < n - 1 {
      PlaneAt(row, channel, n - 1, x);
      assert Plane(row, channel, n)[2 * x..2 * x + 2] == Plane(row, channel, n - 1)[2 * x..2 * x + 2];
    }
  }

  lemma LittleTwo(v: nat)
    requires v < 0x1_0000
    ensures Little(v, 2) == [v % 256, v / 256]
  {
    assert Little(v / 256, 1) == [v / 256 % 256];
  }

  // Where a channel's samples begin in a scan line block: alpha, blue, green, red.
  function SamplesAt(width: nat, channel: nat): nat
    requires channel < 4
  {
    match channel
    case 3 => 8
    case 2 => 8 + 2 * width
    case 1 => 8 + 4 * width
    case _ => 8 + 6 * width
  }

  // A stretch of the second, third, fourth or fifth of five pieces.
  lemma InPieces(head: seq<byte>, a: seq<byte>, b: seq<byte>, g: seq<byte>, r: seq<byte>, i: nat)
    requires i + 2 <= |a| == |b| == |g| == |r|
    ensures var all, k := head + a + b + g + r, |head| + i;
            && all[..|head|] == head
            && all[k..k + 2] == a[i..i + 2] && all[k + |a|..k + |a| + 2] == b[i..i + 2]
            && all[k + 2 * |a|..k + 2 * |a| + 2] == g[i..i + 2] && all[k + 3 * |a|..k + 3 * |a| + 2] == r[i..i + 2]
  {
  }

  lemma BlockPlaced(y: nat, width: nat, row: seq<nat>, channel: nat, x: nat)
    requires |row| == 4 * width && channel < 4 && x < width
    ensures var block, k := Scanline(y, width, row), SamplesAt(width, channel) + 2 * x;
            && block[..8] == Little(Bits32(y), 4) + Little(Bits32(8 * width), 4)
            && block[k..k + 2] == Little(row[4 * x + channel], 2)
  {
    hide Little, Plane, Bits32;
    PlaneAt(row, channel, width, x);
    InPieces(Little(Bits32(y), 4) + Little(Bits32(8 * width), 4), Plane(row, 3, width), Plane(row, 2, width),
             Plane(row, 1, width), Plane(row, 0, width), 2 * x);
  }

  // A block in bytes: row number and size, then every sample at its place, low byte first.
  lemma BlockWritten(y: nat, width: nat, row: seq<nat>, channel: nat, x: nat)
    requires |row| == 4 * width && channel < 4 && x < width && y < WRAP32 && 8 * width < WRAP32
    requires row[4 * x + channel] < 0x1_0000
    ensures var block, k := Scanline(y, width, row), SamplesAt(width, channel) + 2 * x;
            && block[..8] == Digits(y) + Digits(8 * width)
            && block[k..k + 2] == [row[4 * x + channel] % 256, row[4 * x + channel] / 256]
  {
    hide Little, Digits, Scanline;
    BlockPlaced(y, width, row, channel, x);
    LittleFour(y);
    LittleFour(8 * width);
    LittleTwo(row[4 * x + channel]);
  }
}
