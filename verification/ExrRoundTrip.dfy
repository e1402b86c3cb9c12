// Reading back what was written.
module ExrRoundTrip {
  import opened Wrappers
  import opened ExrFormat
  import opened ExrReader

  // ---- Tokens ----

  lemma NumberBack(data: seq<byte>, pos: nat, v: nat, n: nat)
    requires At(data, pos, Little(v, n)) && v < Range(n)
    ensures Number(data, pos, n) == Ok(v)
  {
    LittleBack(v, n);
  }

  predicate Printable(s: seq<byte>) {
    forall i :: 0 <= i < |s| ==> s[i] != 0
  }

  lemma {:induction false} StringBack(data: seq<byte>, pos: nat, s: seq<byte>)
    requires At(data, pos, StringBytes(s)) && Printable(s)
    ensures StringZ(data, pos) == Ok((s, pos + |s| + 1))
    decreases |s|
  {
    assert data[pos] == StringBytes(s)[0];
    if s != [] {
      assert StringBytes(s) == [s[0]] + StringBytes(s[1..]);
      AtParts(data, pos, [s[0]], StringBytes(s[1..]));
      StringBack(data, pos + 1, s[1..]);
      assert [s[0]] + s[1..] == s;
    }
  }

  lemma ChannelTailBack(data: seq<byte>, pos: nat)
    requires At(data, pos, ChannelTail())
    ensures Number(data, pos, 4) == Ok(HALF_PIXEL_TYPE) && Number(data, pos + 4, 4) == Ok(0)
    ensures Number(data, pos + 8, 4) == Ok(1) && Number(data, pos + 12, 4) == Ok(1)
  {
    hide Little, Number;
    Ranges();
    FourZeros();
    AtParts(data, pos, Little(HALF_PIXEL_TYPE, 4) + [0, 0, 0, 0] + Little(1, 4), Little(1, 4));
    AtParts(data, pos, Little(HALF_PIXEL_TYPE, 4) + [0, 0, 0, 0], Little(1, 4));
    AtParts(data, pos, Little(HALF_PIXEL_TYPE, 4), [0, 0, 0, 0]);
    NumberBack(data, pos, HALF_PIXEL_TYPE, 4);
    NumberBack(data, pos + 4, 0, 4);
    NumberBack(data, pos + 8, 1, 4);
    NumberBack(data, pos + 12, 1, 4);
  }

  lemma FourZeros()
    ensures Little(0, 4) == [0, 0, 0, 0]
  {
    assert Little(0, 2) == [0, 0];
    assert Little(0, 3) == [0, 0, 0];
  }

  predicate NamesPrintable(names: seq<seq<byte>>) {
    forall i :: 0 <= i < |names| ==> names[i] != [] && Printable(names[i])
  }

  lemma ChannelEntryBack(data: seq<byte>, pos: nat)
    requires At(data, pos, ChannelTail())
    ensures ChannelEntry(data, pos) == Ok(pos + 16)
  {
    hide Number, At, ChannelTail;
    ChannelTailBack(data, pos);
  }

  lemma {:induction false} ChannelNamesBack(data: seq<byte>, pos: nat, before: seq<seq<byte>>, names: seq<seq<byte>>)
    requires At(data, pos, ChannelBytes(names)) && NamesPrintable(names)
    ensures ChannelNames(data, pos, before) == Ok((before + names, pos + |ChannelBytes(names)|))
    decreases |names|
  {
    hide At, ChannelTail, StringZ, ChannelEntry, StringBytes, Printable;
    if names == [] {
      EmptyString();
      StringBack(data, pos, []);
      assert before + [] == before;
    } else {
      var name, rest := names[0], names[1..];
      AtParts(data, pos, StringBytes(name) + ChannelTail(), ChannelBytes(rest));
      AtParts(data, pos, StringBytes(name), ChannelTail());
      StringBytesSize(name);
      StringBack(data, pos, name);
      var p := pos + |name| + 1;
      ChannelEntryBack(data, p);
      ChannelNamesBack(data, p + 16, before + [name], rest);
      hide ChannelBytes;
      assert before + [name] + rest == before + names;
    }
  }

  lemma EmptyString()
    ensures StringBytes([]) == [0] && Printable([])
  {
  }

  lemma StringBytesSize(s: seq<byte>)
    ensures |StringBytes(s)| == |s| + 1
  {
  }

  predicate Int32(x: int) {
    -0x8000_0000 <= x < 0x8000_0000
  }

  predicate InRange(b: Box2i) {
    Int32(b.minX) && Int32(b.minY) && Int32(b.maxX) && Int32(b.maxY)
  }

  lemma BoxBack(data: seq<byte>, pos: nat, b: Box2i)
    requires At(data, pos, BoxBytes(b)) && InRange(b)
    ensures BoxAt(data, pos) == Ok(b)
  {
    hide Little, Number, Bits32, Signed32;
    Ranges();
    var p1, p2 := Little(Bits32(b.minX), 4), Little(Bits32(b.minY), 4);
    var p3, p4 := Little(Bits32(b.maxX), 4), Little(Bits32(b.maxY), 4);
    AtParts(data, pos, p1 + p2 + p3, p4);
    AtParts(data, pos, p1 + p2, p3);
    AtParts(data, pos, p1, p2);
    NumberBack(data, pos, Bits32(b.minX), 4);
    NumberBack(data, pos + 4, Bits32(b.minY), 4);
    NumberBack(data, pos + 8, Bits32(b.maxX), 4);
    NumberBack(data, pos + 12, Bits32(b.maxY), 4);
    Signed32Back(b.minX);
    Signed32Back(b.minY);
    Signed32Back(b.maxX);
    Signed32Back(b.maxY);
  }

  // ---- Attributes ----

  // A value that the reader accepts for the attribute.
  predicate Accepted(a: HeaderName, v: AttributeValue) {
    match a
    case Channels => v == ChannelList(CHANNEL_NAMES)
    case Compression => v == Byte(NO_COMPRESSION)
    case DataWindow => v.Box? && InRange(v.box)
    case DisplayWindow => v.Box? && InRange(v.box)
    case LineOrder => v == Byte(INCREASING_Y)
    case PixelAspectRatio => v.Float? && v.bits < WRAP32
    case ScreenWindowCenter => v.V2f? && v.x < WRAP32 && v.y < WRAP32
    case ScreenWindowWidth => v.Float? && v.bits < WRAP32
  }

  function With(info: HeaderInfo, a: HeaderName, v: AttributeValue): HeaderInfo
    requires Accepted(a, v)
  {
    match a
    case Channels => info.(channels := true)
    case Compression => info.(compression := true)
    case DataWindow => info.(dataWindow := Some(v.box))
    case DisplayWindow => info.(displayWindow := Some(v.box))
    case LineOrder => info.(lineOrder := true)
    case PixelAspectRatio => info.(pixelAspectRatio := Some(v.bits))
    case ScreenWindowCenter => info.(screenWindowCenter := Some((v.x, v.y)))
    case ScreenWindowWidth => info.(screenWindowWidth := Some(v.bits))
  }

  // The names differ in length.
  lemma NameKnown(a: HeaderName)
    ensures Known(Name(a)) == Some(a) && Name(a) != [] && Printable(Name(a)) && Printable(Kind(a))
  {
    NamePrintable(a);
    NameLengths();
    hide Name, Kind;
  }

  lemma AsciiPrintable(s: string)
    requires forall i :: 0 <= i < |s| ==> 0 < s[i] as int < 256
    ensures Printable(Ascii(s))
  {
  }

  lemma NamePrintable(a: HeaderName)
    ensures Printable(Name(a)) && Printable(Kind(a))
  {
    hide Ascii, Printable;
    match a
    case Channels => AsciiPrintable("channels"); AsciiPrintable("chlist");
    case Compression => AsciiPrintable("compression");
    case DataWindow => AsciiPrintable("dataWindow"); AsciiPrintable("box2i");
    case DisplayWindow => AsciiPrintable("displayWindow"); AsciiPrintable("box2i");
    case LineOrder => AsciiPrintable("lineOrder");
    case PixelAspectRatio => AsciiPrintable("pixelAspectRatio"); AsciiPrintable("float");
    case ScreenWindowCenter => AsciiPrintable("screenWindowCenter"); AsciiPrintable("v2f");
    case ScreenWindowWidth => AsciiPrintable("screenWindowWidth"); AsciiPrintable("float");
  }

  lemma NameLengths()
    ensures |Name(Channels)| == 8 && |Name(Compression)| == 11 && |Name(DataWindow)| == 10
            && |Name(DisplayWindow)| == 13
    ensures |Name(LineOrder)| == 9 && |Name(PixelAspectRatio)| == 16 && |Name(ScreenWindowCenter)| == 18
    ensures |Name(ScreenWindowWidth)| == 17
  {
  }

  lemma FixedBack(data: seq<byte>, pos: nat, a: HeaderName, v: AttributeValue, info: HeaderInfo)
    requires a != Channels && Accepted(a, v) && At(data, pos, ValueBytes(v))
    ensures FixedPayload(data, pos, a, info) == Ok(With(info, a, v)) && ValueSize(v) == ExpectedSize(a)
  {
    hide Number, Little, BoxAt, BoxBytes;
    Ranges();
    OneByte();
    match a
    case Compression => NumberBack(data, pos, NO_COMPRESSION, 1);
    case DataWindow => BoxBack(data, pos, v.box);
    case DisplayWindow => BoxBack(data, pos, v.box);
    case LineOrder => NumberBack(data, pos, INCREASING_Y, 1);
    case PixelAspectRatio => NumberBack(data, pos, v.bits, 4);
    case ScreenWindowCenter =>
      AtParts(data, pos, Little(v.x, 4), Little(v.y, 4));
      NumberBack(data, pos, v.x, 4);
      NumberBack(data, pos + 4, v.y, 4);
    case ScreenWindowWidth => NumberBack(data, pos, v.bits, 4);
  }

  lemma OneByte()
    ensures Little(0, 1) == [0]
  {
  }

  lemma ChannelsSmall()
    ensures NamesPrintable(CHANNEL_NAMES) && ChannelListSize(CHANNEL_NAMES) == 73
  {
    var n1: seq<seq<byte>>, n2: seq<seq<byte>>, n3: seq<seq<byte>> := [[65]], [[65], [66]], [[65], [66], [71]];
    assert CHANNEL_NAMES[..3] == n3 && n3[..2] == n2 && n2[..1] == n1 && n1[..0] == [];
    assert ChannelListSize(n1) == 19;
    assert ChannelListSize(n2) == 37;
    assert ChannelListSize(n3) == 55;
  }

  lemma PayloadBack(data: seq<byte>, pos: nat, a: HeaderName, v: AttributeValue, info: HeaderInfo)
    requires Accepted(a, v) && At(data, pos, ValueBytes(v))
    ensures Payload(data, pos, Name(a), Kind(a), ValueSize(v), info) == Ok((With(info, a, v), pos + ValueSize(v)))
    ensures ValueSize(v) < 0x8000_0000
  {
    hide Known, Name, Kind, FixedPayload, ChannelNames, ChannelBytes, ChannelListSize;
    NameKnown(a);
    if a == Channels {
      ChannelsSmall();
      ChannelNamesBack(data, pos, [], CHANNEL_NAMES);
      ChannelListSizeIs(CHANNEL_NAMES);
      assert [] + CHANNEL_NAMES == CHANNEL_NAMES;
    } else {
      FixedBack(data, pos, a, v, info);
    }
  }

  lemma AttributeBack(data: seq<byte>, pos: nat, a: HeaderName, v: AttributeValue, info: HeaderInfo)
    requires Accepted(a, v) && At(data, pos, AttributeBytes(Entry(a, v)))
    ensures Attributes(data, pos, info) == Attributes(data, pos + |AttributeBytes(Entry(a, v))|, With(info, a, v))
  {
    hide At, Name, Kind, StringZ, Number, Little, Payload, ValueBytes, ValueSize, With, Accepted, Known, StringBytes,
         Printable, Attributes;
    var name, kind, size := Name(a), Kind(a), ValueSize(v);
    AtParts(data, pos, StringBytes(name) + StringBytes(kind) + Little(Bits32(size), 4), ValueBytes(v));
    AtParts(data, pos, StringBytes(name) + StringBytes(kind), Little(Bits32(size), 4));
    AtParts(data, pos, StringBytes(name), StringBytes(kind));
    NameKnown(a);
    StringBytesSize(name);
    StringBytesSize(kind);
    StringBack(data, pos, name);
    var p := pos + |name| + 1;
    StringBack(data, p, kind);
    var q := p + |kind| + 1;
    PayloadBack(data, q + 4, a, v, info);
    Ranges();
    NumberBack(data, q, Bits32(size), 4);
    ValueSizeIs(v);
    AttributeStep(data, pos, info, name, p, kind, q, Bits32(size), With(info, a, v), q + 4 + size);
  }

  lemma AttributeStep(data: seq<byte>, pos: nat, info: HeaderInfo, name: seq<byte>, p: nat, kind: seq<byte>, q: nat,
                      size: nat,
                      info': HeaderInfo, end: nat)
    requires name != [] && StringZ(data, pos) == Ok((name, p)) && StringZ(data, p) == Ok((kind, q))
    requires Number(data, q, 4) == Ok(size) && Signed32(size) >= 0
    requires Payload(data, q + 4, name, kind, size, info) == Ok((info', end))
    ensures Attributes(data, pos, info) == Attributes(data, end, info')
  {
    hide StringZ, Number, Payload;
  }

  // ---- The header ----

  type Entries = seq<(HeaderName, AttributeValue)>

  predicate AllAccepted(entries: Entries) {
    forall i :: 0 <= i < |entries| ==> Accepted(entries[i].0, entries[i].1)
  }

  function AsHeader(entries: Entries): (h: seq<Attribute>)
    ensures |h| == |entries|
  {
    seq(|entries|, i requires 0 <= i < |entries| => Entry(entries[i].0, entries[i].1))
  }

  function WithAll(info: HeaderInfo, entries: Entries): HeaderInfo
    requires AllAccepted(entries)
    decreases |entries|
  {
    if entries == [] then info else WithAll(With(info, entries[0].0, entries[0].1), entries[1..])
  }

  // Any list of accepted attributes reads back, in any order and with repetitions.
  lemma {:induction false} HeaderBack(data: seq<byte>, pos: nat, entries: Entries, info: HeaderInfo)
    requires AllAccepted(entries) && At(data, pos, HeaderBytes(AsHeader(entries)))
    ensures Attributes(data, pos, info) == Ok((WithAll(info, entries), pos + |HeaderBytes(AsHeader(entries))|))
    decreases |entries|
  {
    hide At, AttributeBytes, With, Accepted, Attributes, StringZ, StringBytes, Printable, Entry;
    if entries == [] {
      EmptyString();
      StringBack(data, pos, []);
      EndOfHeader(data, pos, info);
    } else {
      var (a, v) := entries[0];
      var first := Entry(a, v);
      assert AsHeader(entries)[1..] == AsHeader(entries[1..]) && AsHeader(entries)[0] == first;
      AtParts(data, pos, AttributeBytes(first), HeaderBytes(AsHeader(entries[1..])));
      AttributeBack(data, pos, a, v, info);
      HeaderBack(data, pos + |AttributeBytes(first)|, entries[1..], With(info, a, v));
    }
  }

  lemma EndOfHeader(data: seq<byte>, pos: nat, info: HeaderInfo)
    requires StringZ(data, pos) == Ok(([], pos + 1))
    ensures Attributes(data, pos, info) == Ok((info, pos + 1))
  {
  }

  // The header of a written file.
  function FileEntries(width: nat, height: nat): Entries {
    var box := Box(Bounds(width, height));
    [ (Channels, ChannelList(CHANNEL_NAMES)), (Compression, Byte(NO_COMPRESSION)), (DataWindow, box),
      (DisplayWindow, box), (LineOrder, Byte(INCREASING_Y)), (PixelAspectRatio, Float(ONE_BITS)),
      (ScreenWindowCenter, V2f(0, 0)), (ScreenWindowWidth, Float(ONE_BITS)) ]
  }

  lemma FileEntriesAre(width: nat, height: nat)
    ensures AllAccepted(FileEntries(width, height)) && AsHeader(FileEntries(width, height)) == Header(width, height)
  {
    hide Name, Kind;
  }

  function FileInfo(width: nat, height: nat): HeaderInfo {
    var box := Bounds(width, height);
    HeaderInfo(true, true, Some(box), Some(box), true, Some(ONE_BITS), Some((0, 0)), Some(ONE_BITS))
  }

  lemma FileInfoIs(width: nat, height: nat)
    requires AllAccepted(FileEntries(width, height))
    ensures WithAll(NO_INFO, FileEntries(width, height)) == FileInfo(width, height)
  {
    hide Bounds, WithAll, AllAccepted;
    var es := FileEntries(width, height);
    var i1 := NO_INFO.(channels := true);
    var i2 := i1.(compression := true);
    var i3 := i2.(dataWindow := Some(Bounds(width, height)));
    var i4 := i3.(displayWindow := Some(Bounds(width, height)));
    var i5 := i4.(lineOrder := true);
    var i6 := i5.(pixelAspectRatio := Some(ONE_BITS));
    var i7 := i6.(screenWindowCenter := Some((0, 0)));
    WithNext(NO_INFO, es, 0);
    WithNext(i1, es, 1);
    WithNext(i2, es, 2);
    WithNext(i3, es, 3);
    WithNext(i4, es, 4);
    WithNext(i5, es, 5);
    WithNext(i6, es, 6);
    WithNext(i7, es, 7);
    assert es[0..] == es && es[8..] == [];
    NothingWith(FileInfo(width, height));
  }

  lemma WithNext(info: HeaderInfo, es: Entries, k: nat)
    requires k < |es| && AllAccepted(es)
    ensures AllAccepted(es[k..]) && AllAccepted(es[k + 1..]) && Accepted(es[k].0, es[k].1)
    ensures WithAll(info, es[k..]) == WithAll(With(info, es[k].0, es[k].1), es[k + 1..])
  {
    assert es[k..][1..] == es[k + 1..];
  }

  lemma NothingWith(info: HeaderInfo)
    ensures WithAll(info, []) == info
  {
  }

  // ---- Scan lines ----

  lemma AtSlice(data: seq<byte>, pos: nat, bs: seq<byte>, i: nat, n: nat)
    requires At(data, pos, bs) && i + n <= |bs|
    ensures pos + i + n <= |data| && data[pos + i..pos + i + n] == bs[i..i + n]
  {
    assert bs == bs[..i] + bs[i..i + n] + bs[i + n..];
    AtParts(data, pos, bs[..i] + bs[i..i + n], bs[i + n..]);
    AtParts(data, pos, bs[..i], bs[i..i + n]);
  }

  lemma AtWhole(data: seq<byte>)
    ensures At(data, 0, data)
  {
  }

  lemma PlaneBack(data: seq<byte>, pos: nat, row: seq<nat>, channel: nat, width: nat, x: nat)
    requires channel < 4 && |row| == 4 * width && x < width && row[4 * x + channel] < 0x1_0000
    requires At(data, pos, Plane(row, channel, width))
    ensures pos + 2 * x + 2 <= |data| && Value(data[pos + 2 * x..pos + 2 * x + 2]) == row[4 * x + channel]
  {
    hide Little, Plane;
    PlaneAt(row, channel, width, x);
    AtSlice(data, pos, Plane(row, channel, width), 2 * x, 2);
    Ranges();
    LittleBack(row[4 * x + channel], 2);
  }

  lemma PackedSizes(width: nat)
    ensures Bits32((width * 4 % WRAP32) * 2) == Bits32(8 * width)
  {
  }

  lemma AtSixParts(data: seq<byte>, pos: nat, a: seq<byte>, b: seq<byte>, c: seq<byte>, d: seq<byte>, e: seq<byte>,
                   f: seq<byte>)
    requires At(data, pos, a + b + c + d + e + f)
    ensures At(data, pos, a) && At(data, pos + |a|, b) && At(data, pos + |a| + |b|, c)
    ensures At(data, pos + |a| + |b| + |c|, d) && At(data, pos + |a| + |b| + |c| + |d|, e)
    ensures At(data, pos + |a| + |b| + |c| + |d| + |e|, f)
  {
    hide At;
    AtParts(data, pos, a + b + c + d + e, f);
    AtParts(data, pos, a + b + c + d, e);
    AtParts(data, pos, a + b + c, d);
    AtParts(data, pos, a + b, c);
    AtParts(data, pos, a, b);
  }

  lemma PlanesPlaced(data: seq<byte>, offset: nat, y: nat, width: nat, row: seq<nat>)
    requires |row| == 4 * width && At(data, offset, Scanline(y, width, row))
    ensures offset + 8 + 8 * width <= |data|
    ensures At(data, offset, Little(Bits32(y), 4)) && At(data, offset + 4, Little(Bits32(8 * width), 4))
    ensures forall c: nat :: c < 4 ==> At(data, offset + 8 + PlaneStart(width, c), Plane(row, c, width))
  {
    hide Little, Plane, Bits32, At;
    AtSixParts(data, offset, Little(Bits32(y), 4), Little(Bits32(8 * width), 4), Plane(row, 3, width),
               Plane(row, 2, width), Plane(row, 1, width), Plane(row, 0, width));
    hide Scanline;
    AtEnd(data, offset + 8 + 6 * width, Plane(row, 0, width));
    assert PlaneStart(width, 3) == 0 && PlaneStart(width, 2) == 2 * width && PlaneStart(width, 1) == 4 * width;
  }

  lemma AtEnd(data: seq<byte>, pos: nat, bs: seq<byte>)
    requires At(data, pos, bs)
    ensures pos + |bs| <= |data|
  {
  }

  lemma RowBack(data: seq<byte>, offset: nat, y: nat, width: nat, row: seq<nat>)
    requires |row| == 4 * width && (forall i :: 0 <= i < 4 * width ==> row[i] < 0x1_0000)
    requires At(data, offset, Scanline(y, width, row)) && offset < 0x8000_0000_0000_0000
    ensures RowAt(data, offset, y, width) == Ok(row)
  {
    hide Scanline, Little, Plane, At, Value, PlaneStart;
    PlanesPlaced(data, offset, y, width, row);
    Ranges();
    NumberBack(data, offset, Bits32(y), 4);
    NumberBack(data, offset + 4, Bits32(8 * width), 4);
    PackedSizes(width);
    hide Number, Bits32;
    forall i | 0 <= i < 4 * width ensures HalfAt(data, offset + 8, width, i) == row[i] {
      assert i == 4 * (i / 4) + i % 4;
      PlaneBack(data, offset + 8 + PlaneStart(width, i % 4), row, i % 4, width, i / 4);
    }
    assert seq(4 * width, i requires 0 <= i < 4 * width => HalfAt(data, offset + 8, width, i)) == row;
  }

  lemma {:induction false} RowsBack(data: seq<byte>, table: nat, width: nat, rows: seq<seq<nat>>,
                                    layout: ScanLineLayout, n: nat)
    requires Rows(rows, width) && n <= |rows| && table + 8 * n <= |data|
    requires forall y :: 0 <= y < n ==> At(data, table + 8 * y, Little(layout.Offset(y) % WRAP64, 8))
    requires forall y :: 0 <= y < n ==> At(data, layout.Offset(y), Scanline(y, width, rows[y]))
    requires forall y :: 0 <= y < n ==> layout.Offset(y) < 0x8000_0000_0000_0000
    ensures RowsAt(data, table, width, n) == Ok(rows[..n])
  {
    hide Scanline, Little, RowAt, Blocks;
    if n > 0 {
      RowsBack(data, table, width, rows, layout, n - 1);
      Ranges();
      var offset := layout.Offset(n - 1);
      LittleBack(offset, 8);
      assert data[table + 8 * (n - 1)..table + 8 * (n - 1) + 8] == Little(offset, 8);
      RowBack(data, offset, n - 1, width, rows[n - 1]);
      assert rows[..n] == rows[..n - 1] + [rows[n - 1]];
    }
  }

  // ---- The whole file ----

  // Where the parts before the scan lines are.
  lemma FileParts(width: nat, rows: seq<seq<nat>>)
    requires Rows(rows, width)
    ensures var data, header := File(width, rows), Header(width, |rows|);
            && At(data, 0, Little(MAGIC, 4)) && At(data, 4, Little(VERSION, 4)) && At(data, 8, HeaderBytes(header))
            && At(data, 8 + |HeaderBytes(header)|, OffsetTable(BuildScanLineLayout(width, |rows|, header), |rows|))
  {
    hide Little, HeaderBytes, Header, OffsetTable, Scanlines, At, BuildScanLineLayout, Rows;
    var data, header := File(width, rows), Header(width, |rows|);
    var m, v, h := Little(MAGIC, 4), Little(VERSION, 4), HeaderBytes(header);
    var t, lines := OffsetTable(BuildScanLineLayout(width, |rows|, header), |rows|), Scanlines(rows, width, |rows|);
    AtWhole(data);
    AtParts(data, 0, m + v + h + t, lines);
    AtParts(data, 0, m + v + h, t);
    AtParts(data, 0, m + v, h);
    AtParts(data, 0, m, v);
  }

  lemma OffsetsPlaced(data: seq<byte>, table: nat, layout: ScanLineLayout, height: nat)
    requires At(data, table, OffsetTable(layout, height))
    ensures table + 8 * height <= |data|
    ensures forall y :: 0 <= y < height ==> At(data, table + 8 * y, Little(layout.Offset(y) % WRAP64, 8))
  {
    hide Little, Blocks, OffsetTable;
    OffsetTableSize(layout, height);
    forall y | 0 <= y < height ensures At(data, table + 8 * y, Little(layout.Offset(y) % WRAP64, 8)) {
      OffsetInside(layout, height, y);
      AtSlice(data, table, OffsetTable(layout, height), 8 * y, 8);
    }
  }

  // The data window gives the dimensions back exactly when both fit a signed coordinate.
  lemma DimensionsBack(width: nat, height: nat)
    requires 0 < width < WRAP32 && 0 < height < WRAP32
    ensures Dimensions(FileInfo(width, height)) ==
            if width <= 0x8000_0000 && height <= 0x8000_0000 then Ok((width, height)) else Err(InvalidDimensions)
  {
  }

  lemma OffsetsSmall(width: nat, rows: seq<seq<nat>>, y: nat)
    requires Rows(rows, width) && y < |rows| && |File(width, rows)| < 0x8000_0000_0000_0000
    ensures BuildScanLineLayout(width, |rows|, Header(width, |rows|)).Offset(y) < 0x8000_0000_0000_0000
  {
    hide Header, HeaderSize, File;
    FileSize(width, rows);
    BlocksMonotone(y, |rows|, 8 + 8 * width);
  }

  // Reading a written file of any dimensions below 2^32: when both are at most 2^31 it returns the same
  // dimensions and, pixel by pixel and channel by channel, the same binary16 values; otherwise the data
  // window does not fit its signed coordinates and the file is rejected.
  lemma RoundTrip(width: nat, rows: seq<seq<nat>>)
    requires Rows(rows, width) && 0 < width < WRAP32 && 0 < |rows| < WRAP32
    requires |File(width, rows)| < 0x8000_0000_0000_0000
    ensures Reading(File(width, rows)) ==
            if width <= 0x8000_0000 && |rows| <= 0x8000_0000
            then Ok(Stored(width, |rows|, FileInfo(width, |rows|), rows))
            else Err(InvalidDimensions)
  {
    hide File, Header, HeaderBytes, HeaderSize, OffsetTable, Attributes, Dimensions, RowsAt, Scanline, At, Little,
         FileInfo, FileEntries, WithAll, AllAccepted, AsHeader, Number, Blocks;
    var height := |rows|;
    var data, header, entries := File(width, rows), Header(width, height), FileEntries(width, height);
    var layout := BuildScanLineLayout(width, height, header);
    FileParts(width, rows);
    Ranges();
    NumberBack(data, 0, MAGIC, 4);
    NumberBack(data, 4, VERSION, 4);
    FileEntriesAre(width, height);
    HeaderBack(data, 8, entries, NO_INFO);
    FileInfoIs(width, height);
    DimensionsBack(width, height);
    var table := 8 + |HeaderBytes(header)|;
    OffsetsPlaced(data, table, layout, height);
    forall y | 0 <= y < height
      ensures At(data, layout.Offset(y), Scanline(y, width, rows[y])) && layout.Offset(y) < 0x8000_0000_0000_0000
    {
      ScanlineAtOffset(width, rows, y);
      OffsetsSmall(width, rows, y);
    }
    RowsBack(data, table, width, rows, layout, height);
    assert rows[..height] == rows;
  }
}
