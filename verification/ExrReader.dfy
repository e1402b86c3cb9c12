// Reading EXR files: what the reader accepts, and what it makes of it.
module ExrReader {
  import opened Wrappers
  import opened ExrFormat

  datatype Error =
    | ReadFailed | SeekFailed
    | InvalidMagic | UnsupportedVersion | UnsupportedFlags
    | InvalidAttributeSize | UnexpectedChannelsType | UnsupportedPixelType | UnsupportedChannelFlags
    | UnsupportedSampling | UnexpectedChannelListSize | UnsupportedChannelLayout
    | UnexpectedAttribute(name: seq<byte>) | UnsupportedCompression | UnsupportedLineOrder
    | MissingAttributes | UnsupportedOrigin | InvalidDimensions | DimensionsTooLarge
    | UnexpectedScanlineIndex | UnexpectedScanlineSize

  datatype Result<+T> = Ok(value: T) | Err(error: Error) {
    predicate IsFailure() {
      Err?
    }

    function PropagateFailure<U>(): Result<U>
      requires Err?
    {
      Err(error)
    }

    function Extract(): T
      requires Ok?
    {
      value
    }
  }

  // ---- Tokens: a value and the position after it ----

  function Number(data: seq<byte>, pos: nat, n: nat): (r: Result<nat>)
    ensures r.Ok? <==> pos + n <= |data|
    ensures r.Ok? ==> r.value == Value(data[pos..pos + n])
  {
    if pos + n <= |data| then Ok(Value(data[pos..pos + n])) else Err(ReadFailed)
  }

  function StringZ(data: seq<byte>, pos: nat): (r: Result<(seq<byte>, nat)>)
    ensures r.Ok? ==> pos < r.value.1 <= |data|
    decreases |data| - pos
  {
    if pos >= |data| then Err(ReadFailed)
    else if data[pos] == 0 then Ok(([], pos + 1))
    else
      var (rest, end) :- StringZ(data, pos + 1);
      Ok(([data[pos]] + rest, end))
  }

  // The fields of one channel after its name.
  function ChannelEntry(data: seq<byte>, p: nat): (r: Result<nat>)
    ensures r.Ok? ==> r.value == p + 16 <= |data|
  {
    var kind :- Number(data, p, 4);
    var flags :- Number(data, p + 4, 4);
    var xSampling :- Number(data, p + 8, 4);
    var ySampling :- Number(data, p + 12, 4);
    if kind != HALF_PIXEL_TYPE then Err(UnsupportedPixelType)
    else if flags != 0 then Err(UnsupportedChannelFlags)
    else if xSampling != 1 || ySampling != 1 then Err(UnsupportedSampling)
    else Ok(p + 16)
  }

  function ChannelNames(data: seq<byte>, pos: nat, names: seq<seq<byte>>): (r: Result<(seq<seq<byte>>, nat)>)
    ensures r.Ok? ==> pos < r.value.1 <= |data|
    decreases |data| - pos
  {
    var (name, p) :- StringZ(data, pos);
    if name == [] then Ok((names, p))
    else
      var next :- ChannelEntry(data, p);
      ChannelNames(data, next, names + [name])
  }

  function BoxAt(data: seq<byte>, pos: nat): (r: Result<Box2i>)
    ensures r.Ok? ==> pos + 16 <= |data|
  {
    var a :- Number(data, pos, 4);
    var b :- Number(data, pos + 4, 4);
    var c :- Number(data, pos + 8, 4);
    var d :- Number(data, pos + 12, 4);
    Ok(Box2i(Signed32(a), Signed32(b), Signed32(c), Signed32(d)))
  }

  // ---- The header ----

  datatype HeaderInfo = HeaderInfo(
    channels: bool,
    compression: bool,
    dataWindow: Option<Box2i>,
    displayWindow: Option<Box2i>,
    lineOrder: bool,
    pixelAspectRatio: Option<nat>,
    screenWindowCenter: Option<(nat, nat)>,
    screenWindowWidth: Option<nat>
  ) {
    predicate Complete() {
      channels && compression && dataWindow.Some? && displayWindow.Some? && lineOrder && pixelAspectRatio.Some?
      && screenWindowCenter.Some? && screenWindowWidth.Some?
    }
  }

  const NO_INFO := HeaderInfo(false, false, None, None, false, None, None, None)

  // Which attribute a name stands for, if the reader knows it.
  function Known(name: seq<byte>): Option<HeaderName> {
    if name == Name(Channels) then Some(Channels)
    else if name == Name(Compression) then Some(Compression)
    else if name == Name(DataWindow) then Some(DataWindow)
    else if name == Name(DisplayWindow) then Some(DisplayWindow)
    else if name == Name(LineOrder) then Some(LineOrder)
    else if name == Name(PixelAspectRatio) then Some(PixelAspectRatio)
    else if name == Name(ScreenWindowCenter) then Some(ScreenWindowCenter)
    else if name == Name(ScreenWindowWidth) then Some(ScreenWindowWidth)
    else None
  }

  function ExpectedSize(a: HeaderName): nat {
    match a
    case Channels => 0
    case Compression => 1
    case DataWindow => 16
    case DisplayWindow => 16
    case LineOrder => 1
    case PixelAspectRatio => 4
    case ScreenWindowCenter => 8
    case ScreenWindowWidth => 4
  }

  function ChannelsPayload(data: seq<byte>, pos: nat, size: nat, info: HeaderInfo): (r: Result<(HeaderInfo, nat)>)
    ensures r.Ok? ==> pos <= r.value.1
  {
    var (names, end) :- ChannelNames(data, pos, []);
    if end - pos != size then Err(UnexpectedChannelListSize)
    else if names != CHANNEL_NAMES then Err(UnsupportedChannelLayout)
    else Ok((info.(channels := true), end))
  }

  // The value of an attribute with a fixed size.
  function FixedPayload(data: seq<byte>, pos: nat, a: HeaderName, info: HeaderInfo): (r: Result<HeaderInfo>)
    requires a != Channels
  {
    match a
    case Compression =>
      var compression :- Number(data, pos, 1);
      if compression != NO_COMPRESSION then Err(UnsupportedCompression) else Ok(info.(compression := true))
    case DataWindow =>
      var box :- BoxAt(data, pos);
      Ok(info.(dataWindow := Some(box)))
    case DisplayWindow =>
      var box :- BoxAt(data, pos);
      Ok(info.(displayWindow := Some(box)))
    case LineOrder =>
      var order :- Number(data, pos, 1);
      if order != INCREASING_Y then Err(UnsupportedLineOrder) else Ok(info.(lineOrder := true))
    case PixelAspectRatio =>
      var bits :- Number(data, pos, 4);
      Ok(info.(pixelAspectRatio := Some(bits)))
    case ScreenWindowCenter =>
      var x :- Number(data, pos, 4);
      var y :- Number(data, pos + 4, 4);
      Ok(info.(screenWindowCenter := Some((x, y))))
    case ScreenWindowWidth =>
      var bits :- Number(data, pos, 4);
      Ok(info.(screenWindowWidth := Some(bits)))
  }

  // The payload of one attribute of the given name, type and size.
  function Payload(data: seq<byte>, pos: nat, name: seq<byte>, kind: seq<byte>, size: nat,
                   info: HeaderInfo): (r: Result<(HeaderInfo, nat)>)
    ensures r.Ok? ==> pos <= r.value.1
  {
    match Known(name)
    case None => Ok((info, pos + size))
    case Some(a) =>
      if a == Channels then
        if kind != Kind(a) then Err(UnexpectedChannelsType) else ChannelsPayload(data, pos, size, info)
      else if kind != Kind(a) || size != ExpectedSize(a) then Err(UnexpectedAttribute(name))
      else
        var info' :- FixedPayload(data, pos, a, info);
        Ok((info', pos + size))
  }

  // All attributes up to the empty name.
  function Attributes(data: seq<byte>, pos: nat, info: HeaderInfo): (r: Result<(HeaderInfo, nat)>)
    decreases if pos < |data| then |data| - pos else 0
  {
    var (name, p) :- StringZ(data, pos);
    if name == [] then Ok((info, p))
    else
      var (kind, q) :- StringZ(data, p);
      var size :- Number(data, q, 4);
      if Signed32(size) < 0 then Err(InvalidAttributeSize)
      else
        var (info', end) :- Payload(data, q + 4, name, kind, size, info);
        Attributes(data, end, info')
  }

  // ---- The pixels ----

  // Dimensions that the header's data window gives.
  function Dimensions(info: HeaderInfo): (r: Result<(nat, nat)>)
    ensures r.Ok? ==> r.value.0 > 0 && r.value.1 > 0
  {
    if !info.Complete() then Err(MissingAttributes)
    else
      var w := info.dataWindow.value;
      if w.minX != 0 || w.minY != 0 then Err(UnsupportedOrigin)
      else
        var width, height := w.maxX - w.minX + 1, w.maxY - w.minY + 1;
        if width <= 0 || height <= 0 then Err(InvalidDimensions)
        else if width >= WRAP32 || height >= WRAP32 then Err(DimensionsTooLarge)
        else Ok((width, height))
  }

  // Where the plane of a channel starts in a block's data.
  function PlaneStart(width: nat, channel: nat): nat {
    if channel == 3 then 0 else if channel == 2 then 2 * width else if channel == 1 then 4 * width else 6 * width
  }

  function HalfAt(data: seq<byte>, pos: nat, width: nat, i: nat): nat
    requires pos + 8 * width <= |data| && i < 4 * width
  {
    var at := pos + PlaneStart(width, i % 4) + 2 * (i / 4);
    Value(data[at..at + 2])
  }

  // The binary16 values of one row, four per pixel, from the block at an offset.
  function RowAt(data: seq<byte>, offset: nat, y: nat, width: nat): Result<seq<nat>> {
    if offset >= 0x8000_0000_0000_0000 then Err(SeekFailed)
    else
      var storedY :- Number(data, offset, 4);
      var packedSize :- Number(data, offset + 4, 4);
      if Signed32(storedY) != Signed32(Bits32(y)) then Err(UnexpectedScanlineIndex)
      else if packedSize != Bits32((width * 4 % WRAP32) * 2) then Err(UnexpectedScanlineSize)
      else if offset + 8 + 8 * width > |data| then Err(ReadFailed)
      else Ok(seq(4 * width, i requires 0 <= i < 4 * width => HalfAt(data, offset + 8, width, i)))
  }

  // Rows 0 to n - 1, with the offset of row y at table + 8 * y.
  function RowsAt(data: seq<byte>, table: nat, width: nat, n: nat): (r: Result<seq<seq<nat>>>)
    requires table + 8 * n <= |data|
    ensures r.Ok? ==> |r.value| == n && forall y :: 0 <= y < n ==> |r.value[y]| == 4 * width
  {
    if n == 0 then Ok([])
    else
      var rows :- RowsAt(data, table, width, n - 1);
      var offset := Value(data[table + 8 * (n - 1)..table + 8 * (n - 1) + 8]);
      var row :- RowAt(data, offset, n - 1, width);
      Ok(rows + [row])
  }

  // What a file says; the pixels as stored, in binary16.
  datatype Stored = Stored(width: nat, height: nat, info: HeaderInfo, rows: seq<seq<nat>>)

  function Reading(data: seq<byte>): (r: Result<Stored>)
    ensures r.Ok? ==> r.value.width > 0 && r.value.height == |r.value.rows| > 0
  {
    var magic :- Number(data, 0, 4);
    var versionField :- Number(data, 4, 4);
    if magic != MAGIC then Err(InvalidMagic)
    else if versionField % 256 != VERSION then Err(UnsupportedVersion)
    else if versionField - versionField % 256 != 0 && versionField - versionField % 256 != LONG_NAMES_FLAG then
      Err(UnsupportedFlags)
    else
      var (info, table) :- Attributes(data, 8, NO_INFO);
      var (width, height) :- Dimensions(info);
      if table + 8 * height > |data| then Err(ReadFailed)
      else
        var rows :- RowsAt(data, table, width, height);
        Ok(Stored(width, height, info, rows))
  }
}
