// WriteRgba16f and the stream that it writes to.
module ExrWriter {
  import F = Float16
  import opened Wrappers
  import opened ExrFormat

  class OutputStream {
    var bytes: seq<byte>

    constructor ()
      ensures bytes == []
    {
      bytes := [];
    }

    // A scalar of n bytes, little-endian.
    method PutNumber(v: nat, n: nat)
      modifies this
      ensures bytes == old(bytes) + Little(v, n)
    {
      var rest, i := v, 0;
      while i < n
        invariant i <= n && bytes + Little(rest, n - i) == old(bytes) + Little(v, n)
      {
        LittleFirst(rest, n - i);
        bytes := bytes + [rest % 256];
        rest := rest / 256;
        i := i + 1;
      }
    }

    method PutString(s: seq<byte>)
      modifies this
      ensures bytes == old(bytes) + StringBytes(s)
    {
      bytes := bytes + s;
      bytes := bytes + [0];
    }

    method PutChannels(names: seq<seq<byte>>)
      modifies this
      ensures bytes == old(bytes) + ChannelBytes(names)
    {
      hide ChannelTail, Little, StringBytes;
      var i := 0;
      while i < |names|
        invariant i <= |names| && bytes + ChannelBytes(names[i..]) == old(bytes) + ChannelBytes(names)
      {
        ghost var before := bytes;
        PutString(names[i]);
        PutChannelTail();
        ChannelFirst(names, i);
        i := i + 1;
      }
      assert names[i..] == [];
      bytes := bytes + [0];
    }

    method PutChannelTail()
      modifies this
      ensures bytes == old(bytes) + ChannelTail()
    {
      hide Little;
      PutNumber(HALF_PIXEL_TYPE, 4);
      bytes := bytes + [0, 0, 0, 0];
      PutNumber(1, 4);
      PutNumber(1, 4);
    }

    method PutBox(b: Box2i)
      modifies this
      ensures bytes == old(bytes) + BoxBytes(b)
    {
      hide Little, Bits32;
      PutNumber(Bits32(b.minX), 4);
      PutNumber(Bits32(b.minY), 4);
      PutNumber(Bits32(b.maxX), 4);
      PutNumber(Bits32(b.maxY), 4);
    }

    method PutValue(v: AttributeValue)
      modifies this
      ensures bytes == old(bytes) + ValueBytes(v)
    {
      hide Little, ChannelBytes, BoxBytes;
      match v {
        case ChannelList(names) => PutChannels(names);
        case Byte(b) => bytes := bytes + [b];
        case Box(box) => PutBox(box);
        case Float(bits) => PutNumber(bits, 4);
        case V2f(x, y) => PutNumber(x, 4); PutNumber(y, 4);
      }
    }

    method PutAttribute(a: Attribute)
      modifies this
      ensures bytes == old(bytes) + AttributeBytes(a)
    {
      hide Little, ValueBytes, ValueSize, StringBytes, Bits32;
      PutString(a.name);
      PutString(a.kind);
      PutNumber(Bits32(ValueSize(a.value)), 4);
      PutValue(a.value);
    }

    method PutHeader(header: seq<Attribute>)
      modifies this
      ensures bytes == old(bytes) + HeaderBytes(header)
    {
      hide AttributeBytes;
      var i := 0;
      while i < |header|
        invariant i <= |header| && bytes + HeaderBytes(header[i..]) == old(bytes) + HeaderBytes(header)
      {
        PutAttribute(header[i]);
        assert header[i..][1..] == header[i + 1..];
        i := i + 1;
      }
      assert header[i..] == [];
      bytes := bytes + [0];
    }

    method PutOffsets(layout: ScanLineLayout, height: nat)
      modifies this
      ensures bytes == old(bytes) + OffsetTable(layout, height)
    {
      hide Little, Blocks;
      var y := 0;
      while y < height
        invariant y <= height && bytes == old(bytes) + OffsetTable(layout, y)
      {
        BlocksIsProduct(y, layout.blockSize);
        PutNumber((layout.pixelDataOffset + y * layout.blockSize) % WRAP64, 8);
        y := y + 1;
      }
    }

    // One plane of a row.
    method PutPlane(row: seq<nat>, channel: nat, width: nat)
      requires channel < 4 && |row| == 4 * width
      modifies this
      ensures bytes == old(bytes) + Plane(row, channel, width)
    {
      hide Little;
      var x := 0;
      while x < width
        invariant x <= width && bytes == old(bytes) + Plane(row, channel, x)
      {
        PutNumber(row[4 * x + channel], 2);
        x := x + 1;
      }
    }

    method PutScanline(y: nat, width: nat, row: seq<nat>)
      requires |row| == 4 * width
      modifies this
      ensures bytes == old(bytes) + Scanline(y, width, row)
    {
      hide Little, Plane, Bits32;
      PutNumber(Bits32(y), 4);
      PutNumber(Bits32(8 * width), 4);
      PutPlane(row, 3, width);
      PutPlane(row, 2, width);
      PutPlane(row, 1, width);
      PutPlane(row, 0, width);
    }
  }

  lemma LittleFirst(v: nat, n: nat)
    requires n > 0
    ensures Little(v, n) == [v % 256] + Little(v / 256, n - 1)
  {
  }

  lemma ChannelFirst(names: seq<seq<byte>>, i: nat)
    requires i < |names|
    ensures ChannelBytes(names[i..]) == StringBytes(names[i]) + ChannelTail() + ChannelBytes(names[i + 1..])
  {
    assert names[i..][1..] == names[i + 1..];
  }

  // ---- Images ----

  datatype WriteError = TooFewChannels | StrideTooSmall | StrideTooLarge | ZeroDimensions

  datatype Written = Written(bytes: seq<byte>) | Refused(error: WriteError)

  // What a channel value becomes: binary16 patterns stay, binary32 patterns are rounded.
  ghost predicate Stores(floats: bool, v: nat, h: nat) {
    if floats then F.Encodes(v, h) else h == v
  }

  // One row of the file, from the channels at `start`.
  ghost predicate RowFor(row: seq<nat>, floats: bool, pixels: seq<nat>, start: nat) {
    && start + |row| <= |pixels|
    && forall i :: 0 <= i < |row| ==> Stores(floats, pixels[start + i], row[i])
  }

  // The rows of the file for pixels given with a stride.
  ghost predicate RowsFor(rows: seq<seq<nat>>, floats: bool, width: nat, pixels: seq<nat>, stride: nat, n: nat) {
    && |rows| == n
    && Rows(rows, width)
    && forall y :: 0 <= y < n ==> RowFor(rows[y], floats, pixels, Blocks(y, stride))
  }

  // Which check refuses, if any; the products wrap as 64-bit sizes do.
  function Refusal(width: nat, height: nat, size: nat, stride: nat): (e: Option<WriteError>) {
    if size < 4 * width * height % WRAP64 then Some(TooFewChannels)
    else if stride < 4 * width then Some(StrideTooSmall)
    else if size < stride * height % WRAP64 then Some(StrideTooLarge)
    else if width == 0 || height == 0 then Some(ZeroDimensions)
    else None
  }

  // Input that passes the checks holds a full stride for every row, its padding included, exactly when the
  // product of stride and height did not wrap; without a wrap, exactly such input for a non-empty image passes.
  lemma AcceptedHoldsRows(width: nat, height: nat, size: nat, stride: nat)
    requires size < WRAP64
    ensures Refusal(width, height, size, stride) == None ==> (stride * height <= size <==> stride * height < WRAP64)
    ensures stride * height < WRAP64 ==>
              (Refusal(width, height, size, stride) == None <==>
               width > 0 && height > 0 && 4 * width <= stride && stride * height <= size)
  {
    if 4 * width <= stride {
      ProductGrows(4 * width, stride, height);
      SmallNotWrapped(4 * width * height);
    }
    SmallNotWrapped(stride * height);
  }

  lemma ProductGrows(a: nat, b: nat, h: nat)
    requires a <= b
    ensures 0 <= a * h <= b * h
  {
  }

  lemma SmallNotWrapped(x: nat)
    ensures x < WRAP64 ==> x % WRAP64 == x
  {
  }

  // Where the last row that the writer takes from the input ends.
  function LastRowEnd(width: nat, height: nat, stride: nat): nat {
    if height == 0 then 0 else Blocks(height - 1, stride) + 4 * width
  }

  // All rows lie inside input that has a full stride for each of them.
  lemma StridesHoldRows(width: nat, height: nat, size: nat, stride: nat)
    requires 4 * width <= stride && stride * height <= size
    ensures LastRowEnd(width, height, stride) <= size
  {
    BlocksIsProduct(height, stride);
  }

  // A stride whose product wraps passes with an input of a single row.
  lemma WrappedStridePasses()
    ensures Refusal(1, 0x8000_0000, 0x2_0000_0000, 0x2_0000_0000) == None
    ensures LastRowEnd(1, 0x8000_0000, 0x2_0000_0000) > 0x2_0000_0000
  {
    BlocksIsProduct(0x7FFF_FFFF, 0x2_0000_0000);
  }

  method EncodeChannel(floats: bool, v: nat) returns (h: nat)
    requires if floats then v < WRAP32 else v < 0x1_0000
    ensures h < 0x1_0000 && Stores(floats, v, h)
  {
    if floats { h := F.Encode(v); } else { h := v; }
  }

  // One row of channels.
  method EncodeRow(floats: bool, pixels: seq<nat>, start: nat, size: nat) returns (row: seq<nat>)
    requires start + size <= |pixels|
    requires forall i :: 0 <= i < |pixels| ==> if floats then pixels[i] < WRAP32 else pixels[i] < 0x1_0000
    ensures |row| == size && RowFor(row, floats, pixels, start) && forall i :: 0 <= i < size ==> row[i] < 0x1_0000
  {
    hide Stores;
    var values := pixels[start..start + size];
    row := [];
    var i := 0;
    while i < size
      invariant i <= size == |values| && |row| == i
      invariant forall k :: 0 <= k < i ==> row[k] < 0x1_0000 && Stores(floats, values[k], row[k])
    {
      var h := EncodeChannel(floats, values[i]);
      row := row + [h];
      i := i + 1;
    }
  }

  // The file of the given pixels, whose rows are what is stored for each channel.
  ghost predicate IsFileOf(bytes: seq<byte>, width: nat, height: nat, pixels: seq<nat>, stride: nat, floats: bool) {
    exists rows :: RowsFor(rows, floats, width, pixels, stride, height) && bytes == File(width, rows)
  }

  method WriteRgba16f(width: nat, height: nat, pixels: seq<nat>, stride: nat, floats: bool) returns (r: Written)
    requires forall i :: 0 <= i < |pixels| ==> if floats then pixels[i] < WRAP32 else pixels[i] < 0x1_0000
    requires |pixels| < WRAP64
    requires Refusal(width, height, |pixels|, stride) == None ==> LastRowEnd(width, height, stride) <= |pixels|
    ensures match Refusal(width, height, |pixels|, stride)
            case Some(error) => r == Refused(error)
            case None => r.Written? && IsFileOf(r.bytes, width, height, pixels, stride, floats)
  {
    hide Little, HeaderBytes, OffsetTable, Header, Scanline, Stores, HeaderSize, RowsFor;
    if |pixels| < 4 * width * height % WRAP64 { return Refused(TooFewChannels); }
    if stride < 4 * width { return Refused(StrideTooSmall); }
    if |pixels| < stride * height % WRAP64 { return Refused(StrideTooLarge); }
    if width == 0 || height == 0 { return Refused(ZeroDimensions); }
    var output := new OutputStream();
    output.PutNumber(MAGIC, 4);
    output.PutNumber(VERSION, 4);
    var header := Header(width, height);
    output.PutHeader(header);
    output.PutOffsets(BuildScanLineLayout(width, height, header), height);
    ghost var rows := PutRows(output, width, height, pixels, stride, floats);
    RowsCounted(rows, floats, width, pixels, stride, height);
    assert output.bytes == File(width, rows);
    return Written(output.bytes);
  }

  lemma RowsCounted(rows: seq<seq<nat>>, floats: bool, width: nat, pixels: seq<nat>, stride: nat, n: nat)
    requires RowsFor(rows, floats, width, pixels, stride, n)
    ensures |rows| == n && Rows(rows, width)
  {
  }

  // All scan line blocks.
  method PutRows(output: OutputStream, width: nat, height: nat, pixels: seq<nat>, stride: nat, floats: bool)
    returns (ghost rows: seq<seq<nat>>)
    requires forall i :: 0 <= i < |pixels| ==> if floats then pixels[i] < WRAP32 else pixels[i] < 0x1_0000
    requires LastRowEnd(width, height, stride) <= |pixels|
    modifies output
    ensures RowsFor(rows, floats, width, pixels, stride, height)
    ensures output.bytes == old(output.bytes) + Scanlines(rows, width, height)
  {
    hide Scanline, Stores, Blocks, Rows;
    rows := [];
    var y := 0;
    NoRows(floats, width, pixels, stride);
    while y < height
      invariant y <= height && RowsFor(rows, floats, width, pixels, stride, y)
      invariant output.bytes == old(output.bytes) + Scanlines(rows, width, y)
    {
      BlocksIsProduct(y, stride);
      RowInside(y, width, height, stride);
      var row := EncodeRow(floats, pixels, y * stride, 4 * width);
      output.PutScanline(y, width, row);
      MoreRows(rows, row, floats, width, pixels, stride, y);
      SameScanlines(rows, row, width, y);
      rows := rows + [row];
      y := y + 1;
    }
  }

  lemma NoRows(floats: bool, width: nat, pixels: seq<nat>, stride: nat)
    ensures RowsFor([], floats, width, pixels, stride, 0) && Scanlines([], width, 0) == []
  {
  }

  lemma RowInside(y: nat, width: nat, height: nat, stride: nat)
    requires y < height
    ensures Blocks(y, stride) + 4 * width <= LastRowEnd(width, height, stride)
  {
    BlocksMonotone(y, height - 1, stride);
  }

  lemma MoreRows(rows: seq<seq<nat>>, row: seq<nat>, floats: bool, width: nat, pixels: seq<nat>, stride: nat, y: nat)
    requires RowsFor(rows, floats, width, pixels, stride, y) && |row| == 4 * width
    requires RowFor(row, floats, pixels, Blocks(y, stride)) && forall i :: 0 <= i < |row| ==> row[i] < 0x1_0000
    ensures RowsFor(rows + [row], floats, width, pixels, stride, y + 1)
  {
    hide RowFor;
    assert Rows(rows + [row], width);
  }

  lemma {:induction false} SameScanlines(rows: seq<seq<nat>>, row: seq<nat>, width: nat, n: nat)
    requires Rows(rows, width) && Rows(rows + [row], width) && n <= |rows|
    ensures Scanlines(rows + [row], width, n) == Scanlines(rows, width, n)
  {
    hide Scanline;
    if n > 0 { SameScanlines(rows, row, width, n - 1); }
  }
}
