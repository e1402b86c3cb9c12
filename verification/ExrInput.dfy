// ReadRgba32f and the stream that it reads from.
module ExrInput {
  import F = Float16
  import opened Wrappers
  import opened ExrFormat
  import opened ExrReader

  // Whether a token's outcome is the outcome of a call that moved to `pos`.
  predicate Agrees<T(==)>(expected: Result<(T, nat)>, r: Result<T>, pos: nat) {
    match expected
    case Ok(p) => r == Ok(p.0) && pos == p.1
    case Err(e) => r == Err(e)
  }

  function Prefixed(front: seq<byte>, r: Result<(seq<byte>, nat)>): Result<(seq<byte>, nat)> {
    match r
    case Ok(p) => Ok((front + p.0, p.1))
    case Err(e) => Err(e)
  }

  lemma StringStep(data: seq<byte>, pos: nat, front: seq<byte>)
    requires pos < |data|
    ensures Prefixed(front, StringZ(data, pos)) ==
            if data[pos] == 0 then Ok((front, pos + 1)) else Prefixed(front + [data[pos]], StringZ(data, pos + 1))
  {
    if data[pos] == 0 {
      assert front + [] == front;
    } else if StringZ(data, pos + 1).Ok? {
      var rest := StringZ(data, pos + 1).value.0;
      assert front + ([data[pos]] + rest) == front + [data[pos]] + rest;
    }
  }

  lemma StringWhole(data: seq<byte>, pos: nat)
    ensures Prefixed([], StringZ(data, pos)) == StringZ(data, pos)
  {
    if StringZ(data, pos).Ok? { assert [] + StringZ(data, pos).value.0 == StringZ(data, pos).value.0; }
  }

  lemma OneByte(data: seq<byte>, pos: nat)
    requires pos < |data|
    ensures Value(data[pos..pos + 1]) == data[pos] as int
  {
  }

  lemma ValueStep(bs: seq<byte>)
    requires bs != []
    ensures Value(bs) == 0 <==> bs[0] == 0 && Value(bs[1..]) == 0
  {
  }

  // Four bytes make a zero exactly when each of them is zero.
  lemma FourBytes(data: seq<byte>, pos: nat)
    requires pos + 4 <= |data|
    ensures Value(data[pos..pos + 4]) == 0 <==>
            data[pos] == 0 && data[pos + 1] == 0 && data[pos + 2] == 0 && data[pos + 3] == 0
  {
    hide Value;
    var bs := data[pos..pos + 4];
    assert bs[1..][1..] == bs[2..] && bs[2..][1..] == bs[3..];
    ValueStep(bs);
    ValueStep(bs[1..]);
    ValueStep(bs[2..]);
    OneByte(data, pos + 3);
    assert bs[3..] == data[pos + 3..pos + 4];
  }

  class InputStream {
    const data: seq<byte>
    var pos: nat

    constructor (data: seq<byte>)
      ensures this.data == data && pos == 0
    {
      this.data := data;
      pos := 0;
    }

    // A scalar of n bytes, little-endian.
    method ReadNumber(n: nat) returns (r: Result<nat>)
      modifies this
      ensures r == Number(data, old(pos), n)
      ensures r.Ok? ==> pos == old(pos) + n
    {
      if pos + n > |data| { return Err(ReadFailed); }
      r := Ok(Value(data[pos..pos + n]));
      pos := pos + n;
    }

    method ReadStringZ() returns (r: Result<seq<byte>>)
      modifies this
      ensures Agrees(StringZ(data, old(pos)), r, pos)
    {
      hide StringZ;
      StringWhole(data, pos);
      var value, ended := [], false;
      while !ended
        invariant ended ==> StringZ(data, old(pos)) == Ok((value, pos))
        invariant !ended ==> StringZ(data, old(pos)) == Prefixed(value, StringZ(data, pos))
        decreases !ended, |data| - pos
      {
        if pos >= |data| {
          StringEnds(data, pos);
          return Err(ReadFailed);
        }
        StringStep(data, pos, value);
        var ch := data[pos];
        pos := pos + 1;
        if ch != 0 { value := value + [ch]; } else { ended := true; }
      }
      return Ok(value);
    }

    method ReadBox() returns (r: Result<Box2i>)
      modifies this
      ensures r == BoxAt(data, old(pos))
      ensures r.Ok? ==> pos == old(pos) + 16
    {
      hide Number, Signed32;
      var minX :- ReadNumber(4);
      var minY :- ReadNumber(4);
      var maxX :- ReadNumber(4);
      var maxY :- ReadNumber(4);
      return Ok(Box2i(Signed32(minX), Signed32(minY), Signed32(maxX), Signed32(maxY)));
    }

    // pLinear and the three reserved bytes.
    method ReadFlags() returns (r: Result<nat>)
      modifies this
      ensures r.Err? ==> r == Number(data, old(pos), 4)
      ensures r.Ok? ==> pos == old(pos) + 4 && Number(data, old(pos), 4).Ok?
      ensures r.Ok? ==> (r.value == 0 <==> Number(data, old(pos), 4) == Ok(0))
    {
      hide Value;
      var pLinear :- ReadNumber(1);
      var reserved0 :- ReadNumber(1);
      var reserved1 :- ReadNumber(1);
      var reserved2 :- ReadNumber(1);
      FourBytes(data, old(pos));
      OneByte(data, old(pos));
      OneByte(data, old(pos) + 1);
      OneByte(data, old(pos) + 2);
      OneByte(data, old(pos) + 3);
      return Ok(pLinear + reserved0 + reserved1 + reserved2);
    }

    // The entry's fields; its end is the new position.
    method ReadChannelEntry() returns (r: Result<nat>)
      modifies this
      ensures r == ChannelEntry(data, old(pos)) && (r.Ok? ==> r.value == pos)
    {
      hide Number;
      var kind :- ReadNumber(4);
      var flags :- ReadFlags();
      var xSampling :- ReadNumber(4);
      var ySampling :- ReadNumber(4);
      if kind != HALF_PIXEL_TYPE { return Err(UnsupportedPixelType); }
      if flags != 0 { return Err(UnsupportedChannelFlags); }
      if xSampling != 1 || ySampling != 1 { return Err(UnsupportedSampling); }
      return Ok(pos);
    }

    method ReadChannelNames() returns (r: Result<seq<seq<byte>>>)
      modifies this
      ensures Agrees(ChannelNames(data, old(pos), []), r, pos)
    {
      hide StringZ, ChannelEntry;
      var names, ended := [], false;
      while !ended
        invariant ended ==> ChannelNames(data, old(pos), []) == Ok((names, pos))
        invariant !ended ==> ChannelNames(data, old(pos), []) == ChannelNames(data, pos, names)
        decreases !ended, |data| - pos
      {
        ghost var start := pos;
        var name :- ReadStringZ();
        if name == [] {
          ended := true;
        } else {
          var next :- ReadChannelEntry();
          names := names + [name];
        }
      }
      return Ok(names);
    }

    method ReadChannels(size: nat, info: HeaderInfo) returns (r: Result<HeaderInfo>)
      modifies this
      ensures Agrees(ChannelsPayload(data, old(pos), size, info), r, pos)
    {
      hide ChannelNames;
      var start := pos;
      var names :- ReadChannelNames();
      if pos - start != size { return Err(UnexpectedChannelListSize); }
      if names != CHANNEL_NAMES { return Err(UnsupportedChannelLayout); }
      return Ok(info.(channels := true));
    }

    // The value of an attribute with a fixed size.
    method ReadFixed(a: HeaderName, info: HeaderInfo) returns (r: Result<HeaderInfo>)
      requires a != Channels
      modifies this
      ensures r == FixedPayload(data, old(pos), a, info)
      ensures r.Ok? ==> pos == old(pos) + ExpectedSize(a)
    {
      hide Number, BoxAt;
      match a {
        case Compression =>
          var compression :- ReadNumber(1);
          if compression != NO_COMPRESSION { return Err(UnsupportedCompression); }
          return Ok(info.(compression := true));
        case DataWindow =>
          var box :- ReadBox();
          return Ok(info.(dataWindow := Some(box)));
        case DisplayWindow =>
          var box :- ReadBox();
          return Ok(info.(displayWindow := Some(box)));
        case LineOrder =>
          var order :- ReadNumber(1);
          if order != INCREASING_Y { return Err(UnsupportedLineOrder); }
          return Ok(info.(lineOrder := true));
        case PixelAspectRatio =>
          var bits :- ReadNumber(4);
          return Ok(info.(pixelAspectRatio := Some(bits)));
        case ScreenWindowCenter =>
          var x :- ReadNumber(4);
          var y :- ReadNumber(4);
          return Ok(info.(screenWindowCenter := Some((x, y))));
        case ScreenWindowWidth =>
          var bits :- ReadNumber(4);
          return Ok(info.(screenWindowWidth := Some(bits)));
      }
    }

    method ReadPayload(name: seq<byte>, kind: seq<byte>, size: nat, info: HeaderInfo) returns (r: Result<HeaderInfo>)
      modifies this
      ensures Agrees(Payload(data, old(pos), name, kind, size, info), r, pos)
    {
      hide Known, Kind, ChannelsPayload, FixedPayload, ExpectedSize;
      match Known(name) {
        case None =>
          pos := pos + size;
          return Ok(info);
        case Some(a) =>
          if a == Channels {
            if kind != Kind(a) { return Err(UnexpectedChannelsType); }
            r := ReadChannels(size, info);
          } else {
            if kind != Kind(a) || size != ExpectedSize(a) { return Err(UnexpectedAttribute(name)); }
            r := ReadFixed(a, info);
          }
      }
    }

    // All attributes up to the empty name.
    method ReadAttributes() returns (r: Result<HeaderInfo>)
      modifies this
      ensures Agrees(Attributes(data, old(pos), NO_INFO), r, pos)
    {
      hide StringZ, Number, Payload;
      var info, ended := NO_INFO, false;
      while !ended
        invariant ended ==> Attributes(data, old(pos), NO_INFO) == Ok((info, pos))
        invariant !ended ==> Attributes(data, old(pos), NO_INFO) == Attributes(data, pos, info)
        decreases !ended, if pos < |data| then |data| - pos else 0
      {
        ghost var start := pos;
        var name :- ReadStringZ();
        if name == [] {
          ended := true;
        } else {
          var kind :- ReadStringZ();
          var size :- ReadNumber(4);
          if Signed32(size) < 0 { return Err(InvalidAttributeSize); }
          info :- ReadPayload(name, kind, size, info);
        }
      }
      return Ok(info);
    }

    method Seek(position: nat) returns (r: Result<()>)
      modifies this
      ensures if position >= 0x8000_0000_0000_0000 then r == Err(SeekFailed) else r == Ok(()) && pos == position
    {
      if position >= 0x8000_0000_0000_0000 { return Err(SeekFailed); }
      pos := position;
      return Ok(());
    }

    method ReadOffsets(height: nat) returns (r: Result<seq<nat>>)
      requires height > 0
      modifies this
      ensures if old(pos) + 8 * height > |data| then r == Err(ReadFailed) else r == Ok(Offsets(data, old(pos), height))
    {
      hide Value;
      var offsets := [];
      var y := 0;
      while y < height
        invariant y <= height && pos == old(pos) + 8 * y && (y > 0 ==> pos <= |data|)
        invariant |offsets| == y && forall k :: 0 <= k < y ==>
                    offsets[k] == Value(data[old(pos) + 8 * k..old(pos) + 8 * k + 8])
      {
        var offset :- ReadNumber(8);
        offsets := offsets + [offset];
        y := y + 1;
      }
      assert offsets == Offsets(data, old(pos), height);
      return Ok(offsets);
    }

    // One plane of a row, as the bytes of the channel buffer.
    method ReadPlane(width: nat) returns (r: Result<seq<nat>>)
      modifies this
      ensures if old(pos) + 2 * width > |data| then r == Err(ReadFailed)
              else r == Ok(Halves(data, old(pos), width)) && pos == old(pos) + 2 * width
    {
      if pos + 2 * width > |data| { return Err(ReadFailed); }
      var halves := Halves(data, pos, width);
      pos := pos + 2 * width;
      return Ok(halves);
    }

    // The scan line block at an offset, decoded to the pixels of row y.
    method ReadRow(offset: nat, y: nat, width: nat, pixels: array<nat>, start: nat) returns (r: Result<()>)
      requires start + 4 * width <= pixels.Length
      modifies this, pixels
      ensures match RowAt(data, offset, y, width)
              case Err(e) => r == Err(e)
              case Ok(row) => r == Ok(()) && RowDecoded(row, pixels[..], start)
      ensures Outside(old(pixels[..]), pixels[..], start, 4 * width)
    {
      hide Value, RowDecoded, PlaneDecoded, PlanesDecoded, OnlyChannel, Outside, Halves, HalfAt, PlaneStart;
      NoPlanes(data, offset + 8, width, pixels[..], start);
      var _ :- Seek(offset);
      var storedY :- ReadNumber(4);
      var packedSize :- ReadNumber(4);
      if Signed32(storedY) != Signed32(Bits32(y)) { return Err(UnexpectedScanlineIndex); }
      if packedSize != Bits32((width * 4 % WRAP32) * 2) { return Err(UnexpectedScanlineSize); }
      ghost var base := offset + 8;
      var channelIndex := 0;
      while channelIndex < 4
        invariant channelIndex <= 4 && pos == base + PlanesSize(width, channelIndex)
        invariant pos <= |data|
        invariant PlanesDecoded(data, base, width, channelIndex, pixels[..], start)
        invariant Outside(old(pixels[..]), pixels[..], start, 4 * width)
      {
        ghost var before := pixels[..];
        PlaneFits(width, channelIndex);
        var halves :- ReadPlane(width);
        HalvesSmall(data, base + PlanesSize(width, channelIndex), width);
        DecodePlane(halves, 3 - channelIndex, pixels, start);
        MorePlanes(data, base, width, channelIndex, before, pixels[..], start);
        StaysOutside(old(pixels[..]), before, pixels[..], 3 - channelIndex, start, width);
        channelIndex := channelIndex + 1;
      }
      PlaneStartIs(width);
      RowFromPlanes(data, base, width, pixels[..], start);
      return Ok(());
    }
  }

  lemma StringEnds(data: seq<byte>, pos: nat)
    requires pos >= |data|
    ensures StringZ(data, pos) == Err(ReadFailed)
  {
  }

  // ---- Pixels ----

  function Offsets(data: seq<byte>, table: nat, height: nat): (offsets: seq<nat>)
    requires table + 8 * height <= |data|
    ensures |offsets| == height
  {
    seq(height, y requires 0 <= y < height => Value(data[table + 8 * y..table + 8 * y + 8]))
  }

  function Halves(data: seq<byte>, pos: nat, width: nat): (halves: seq<nat>)
    requires pos + 2 * width <= |data|
    ensures |halves| == width
  {
    seq(width, x requires 0 <= x < width => Value(data[pos + 2 * x..pos + 2 * x + 2]))
  }

  // The channels of a row, decoded from one position on.
  ghost predicate RowDecoded(row: seq<nat>, pixels: seq<nat>, start: nat) {
    && start + |row| <= |pixels|
    && forall i :: 0 <= i < |row| ==> F.Decodes(row[i], pixels[start + i])
  }

  ghost predicate PlaneDecoded(halves: seq<nat>, channel: nat, pixels: seq<nat>, start: nat) {
    && channel < 4 && start + 4 * |halves| <= |pixels|
    && forall x :: 0 <= x < |halves| ==> F.Decodes(halves[x], pixels[start + 4 * x + channel])
  }

  // The bytes of the first n planes of a block.
  function PlanesSize(width: nat, n: nat): nat {
    if n == 0 then 0 else PlanesSize(width, n - 1) + 2 * width
  }

  // The first n planes of a block, alpha first, are decoded.
  ghost predicate PlanesDecoded(data: seq<byte>, base: nat, width: nat, n: nat, pixels: seq<nat>, start: nat) {
    forall k :: 0 <= k < n <= 4 ==>
      && base + PlanesSize(width, k) + 2 * width <= |data|
      && PlaneDecoded(Halves(data, base + PlanesSize(width, k), width), 3 - k, pixels, start)
  }

  // Only positions of one channel of a row differ.
  ghost predicate OnlyChannel(before: seq<nat>, after: seq<nat>, channel: nat, start: nat, width: nat) {
    && |before| == |after|
    && forall j :: 0 <= j < |after| && !(start <= j < start + 4 * width && (j - start) % 4 == channel) ==>
         after[j] == before[j]
  }

  lemma HalvesSmall(data: seq<byte>, pos: nat, width: nat)
    requires pos + 2 * width <= |data|
    ensures forall x :: 0 <= x < width ==> Halves(data, pos, width)[x] < 0x1_0000
  {
    Ranges();
    forall x | 0 <= x < width ensures Halves(data, pos, width)[x] < 0x1_0000 {
      ValueBounded(data[pos + 2 * x..pos + 2 * x + 2]);
    }
  }

  method DecodePlane(halves: seq<nat>, channel: nat, pixels: array<nat>, start: nat)
    requires channel < 4 && start + 4 * |halves| <= pixels.Length
    requires forall x :: 0 <= x < |halves| ==> halves[x] < 0x1_0000
    modifies pixels
    ensures PlaneDecoded(halves, channel, pixels[..], start)
    ensures OnlyChannel(old(pixels[..]), pixels[..], channel, start, |halves|)
  {
    hide F.Decodes;
    var x := 0;
    while x < |halves|
      invariant x <= |halves|
      invariant forall k :: 0 <= k < x ==> F.Decodes(halves[k], pixels[start + 4 * k + channel])
      invariant OnlyChannel(old(pixels[..]), pixels[..], channel, start, |halves|)
    {
      var value := F.Decode(halves[x]);
      pixels[start + 4 * x + channel] := value;
      x := x + 1;
    }
  }

  lemma KeepsPlane(halves: seq<nat>, c: nat, before: seq<nat>, after: seq<nat>, channel: nat, start: nat)
    requires PlaneDecoded(halves, c, before, start) && c != channel
    requires OnlyChannel(before, after, channel, start, |halves|)
    ensures PlaneDecoded(halves, c, after, start)
  {
    hide F.Decodes;
    forall x | 0 <= x < |halves| ensures F.Decodes(halves[x], after[start + 4 * x + c]) {
      assert (4 * x + c) % 4 == c;
    }
  }

  lemma MorePlanes(data: seq<byte>, base: nat, width: nat, n: nat, before: seq<nat>, after: seq<nat>, start: nat)
    requires n < 4 && PlanesDecoded(data, base, width, n, before, start)
    requires base + PlanesSize(width, n) + 2 * width <= |data|
    requires PlaneDecoded(Halves(data, base + PlanesSize(width, n), width), 3 - n, after, start)
    requires OnlyChannel(before, after, 3 - n, start, width)
    ensures PlanesDecoded(data, base, width, n + 1, after, start)
  {
    hide PlaneDecoded, OnlyChannel, Halves;
    forall k | 0 <= k < n + 1
      ensures base + PlanesSize(width, k) + 2 * width <= |data|
      ensures PlaneDecoded(Halves(data, base + PlanesSize(width, k), width), 3 - k, after, start)
    {
      if k < n { KeepsPlane(Halves(data, base + PlanesSize(width, k), width), 3 - k, before, after, 3 - n, start); }
    }
  }

  lemma NoPlanes(data: seq<byte>, base: nat, width: nat, pixels: seq<nat>, start: nat)
    ensures PlanesDecoded(data, base, width, 0, pixels, start) && Outside(pixels, pixels, start, 4 * width)
  {
  }

  lemma StaysOutside(before: seq<nat>, between: seq<nat>, after: seq<nat>, channel: nat, start: nat, width: nat)
    requires Outside(before, between, start, 4 * width) && OnlyChannel(between, after, channel, start, width)
    ensures Outside(before, after, start, 4 * width)
  {
  }

  lemma PlaneStartIs(width: nat)
    ensures PlanesSize(width, 0) == PlaneStart(width, 3) && PlanesSize(width, 1) == PlaneStart(width, 2)
    ensures PlanesSize(width, 2) == PlaneStart(width, 1) && PlanesSize(width, 3) == PlaneStart(width, 0)
    ensures PlanesSize(width, 4) == 8 * width
  {
  }

  lemma PlaneFits(width: nat, n: nat)
    requires n < 4
    ensures PlanesSize(width, n) + 2 * width <= 8 * width
  {
    PlaneStartIs(width);
  }

  // Four decoded planes are a decoded row.
  lemma RowFromPlanes(data: seq<byte>, base: nat, width: nat, pixels: seq<nat>, start: nat)
    requires base + 8 * width <= |data| && PlanesDecoded(data, base, width, 4, pixels, start)
             && start + 4 * width <= |pixels|
    ensures RowDecoded(seq(4 * width, i requires 0 <= i < 4 * width => HalfAt(data, base, width, i)), pixels, start)
  {
    hide F.Decodes, Value, PlanesSize;
    PlaneStartIs(width);
    forall i | 0 <= i < 4 * width ensures F.Decodes(HalfAt(data, base, width, i), pixels[start + i]) {
      var c, x := i % 4, i / 4;
      assert i == 4 * x + c;
      var halves := Halves(data, base + PlanesSize(width, 3 - c), width);
      assert PlaneDecoded(halves, 3 - (3 - c), pixels, start);
      assert halves[x] == HalfAt(data, base, width, i);
    }
  }

  predicate Outside(before: seq<nat>, after: seq<nat>, start: nat, n: nat) {
    |before| == |after| && forall j :: 0 <= j < |after| && !(start <= j < start + n) ==> after[j] == before[j]
  }

  // ---- The image ----

  datatype Image = Image(width: nat, height: nat, info: HeaderInfo, pixels: seq<nat>)

  // An image holds, channel by channel, the decoded values of the stored rows.
  ghost predicate Shows(pixels: seq<nat>, rows: seq<seq<nat>>, width: nat) {
    forall y :: 0 <= y < |rows| ==> RowDecoded(rows[y], pixels, Blocks(y, 4 * width))
  }

  lemma KeepsRow(row: seq<nat>, before: seq<nat>, after: seq<nat>, start: nat, next: nat, n: nat)
    requires RowDecoded(row, before, start) && start + |row| <= next && Outside(before, after, next, n)
    ensures RowDecoded(row, after, start)
  {
    hide F.Decodes;
  }

  lemma MoreShown(rows: seq<seq<nat>>, row: seq<nat>, before: seq<nat>, after: seq<nat>, width: nat)
    requires Shows(before, rows, width) && (forall y :: 0 <= y < |rows| ==> |rows[y]| == 4 * width)
    requires Outside(before, after, Blocks(|rows|, 4 * width), 4 * width)
    requires RowDecoded(row, after, Blocks(|rows|, 4 * width))
    ensures Shows(after, rows + [row], width)
  {
    hide RowDecoded, Outside;
    forall y | 0 <= y < |rows| + 1 ensures RowDecoded((rows + [row])[y], after, Blocks(y, 4 * width)) {
      if y < |rows| {
        BlocksMonotone(y + 1, |rows|, 4 * width);
        KeepsRow(rows[y], before, after, Blocks(y, 4 * width), Blocks(|rows|, 4 * width), 4 * width);
      }
    }
  }

  lemma NoneShown(pixels: seq<nat>, width: nat)
    ensures Shows(pixels, [], width)
  {
  }

  // Errors of one row are errors of all rows.
  lemma RowsStep(data: seq<byte>, table: nat, width: nat, n: nat, rows: seq<seq<nat>>)
    requires table + 8 * (n + 1) <= |data| && RowsAt(data, table, width, n) == Ok(rows)
    ensures RowsAt(data, table, width, n + 1) ==
            match RowAt(data, Offsets(data, table, n + 1)[n], n, width)
            case Ok(row) => Ok(rows + [row])
            case Err(e) => Err(e)
  {
    hide RowAt, Value;
  }

  lemma {:induction false} RowsFail(data: seq<byte>, table: nat, width: nat, n: nat, height: nat)
    requires n <= height && table + 8 * height <= |data| && RowsAt(data, table, width, n).Err?
    ensures RowsAt(data, table, width, height) == RowsAt(data, table, width, n)
    decreases height
  {
    hide RowAt, Value;
    if n < height { RowsFail(data, table, width, n, height - 1); }
  }

  // The pixels of all rows.
  method ReadRows(input: InputStream, offsets: seq<nat>, table: nat, width: nat) returns (r: Result<seq<nat>>)
    requires table + 8 * |offsets| <= |input.data| && offsets == Offsets(input.data, table, |offsets|)
    modifies input
    ensures match RowsAt(input.data, table, width, |offsets|)
            case Err(e) => r == Err(e)
            case Ok(rows) => r.Ok? && |r.value| == Blocks(|offsets|, 4 * width) && Shows(r.value, rows, width)
  {
    hide Value, RowAt, RowDecoded, Outside, Blocks, Shows;
    var height := |offsets|;
    var pixels := new nat[Blocks(height, 4 * width)];
    var y := 0;
    ghost var rows := [];
    NoneShown(pixels[..], width);
    NoRowsAt(input.data, table, width);
    while y < height
      invariant y <= height && |rows| == y && RowsAt(input.data, table, width, y) == Ok(rows)
      invariant Shows(pixels[..], rows, width)
    {
      ghost var before := pixels[..];
      var start := y * (4 * width);
      BlocksIsProduct(y, 4 * width);
      RowFits(y, height, width);
      RowsStep(input.data, table, width, y, rows);
      OffsetIs(input.data, table, y, height);
      var done := input.ReadRow(offsets[y], y, width, pixels, start);
      if done.Err? {
        RowsFail(input.data, table, width, y + 1, height);
        return Err(done.error);
      }
      ghost var row := RowAt(input.data, offsets[y], y, width).value;
      MoreShown(rows, row, before, pixels[..], width);
      rows := rows + [row];
      y := y + 1;
    }
    return Ok(pixels[..]);
  }

  lemma NoRowsAt(data: seq<byte>, table: nat, width: nat)
    requires table <= |data|
    ensures RowsAt(data, table, width, 0) == Ok([])
  {
  }

  lemma RowFits(y: nat, height: nat, width: nat)
    requires y < height
    ensures Blocks(y, 4 * width) + 4 * width <= Blocks(height, 4 * width)
  {
    BlocksMonotone(y + 1, height, 4 * width);
  }

  lemma OffsetIs(data: seq<byte>, table: nat, y: nat, height: nat)
    requires y < height && table + 8 * height <= |data|
    ensures Offsets(data, table, height)[y] == Offsets(data, table, y + 1)[y]
  {
  }

  method ReadRgba32f(data: seq<byte>) returns (r: Result<Image>)
    ensures match Reading(data)
            case Err(e) => r == Err(e)
            case Ok(st) =>
              && r.Ok? && r.value.width == st.width && r.value.height == st.height && r.value.info == st.info
              && |r.value.pixels| == Blocks(st.height, 4 * st.width) && Shows(r.value.pixels, st.rows, st.width)
  {
    hide Attributes, Number, Dimensions, RowsAt, Shows, Offsets, Blocks;
    var input := new InputStream(data);
    var magic :- input.ReadNumber(4);
    var versionField :- input.ReadNumber(4);
    if magic != MAGIC { return Err(InvalidMagic); }
    var version := versionField % 256;
    var flags := versionField - version;
    if version != VERSION { return Err(UnsupportedVersion); }
    if flags != 0 && flags != LONG_NAMES_FLAG { return Err(UnsupportedFlags); }
    var info :- input.ReadAttributes();
    var dimensions :- Dimensions(info);
    var (width, height) := dimensions;
    var table := input.pos;
    var offsets :- input.ReadOffsets(height);
    var pixels :- ReadRows(input, offsets, table, width);
    return Ok(Image(width, height, info, pixels));
  }
}
