// Writing a file and reading it back.
module ExrFiles {
  import F = Float16
  import opened ExrFormat
  import opened ExrReader
  import ExrInput
  import ExrRoundTrip
  import ExrWriter

  // ---- The size of a file ----

  lemma EntrySmall(a: HeaderName, v: AttributeValue)
    requires ValueSize(v) <= 73
    ensures AttributeSize(Entry(a, v)) <= 200
  {
    hide ValueSize;
    match a
    case _ =>
  }

  lemma ChannelsSize()
    ensures ChannelListSize(CHANNEL_NAMES) == 73
  {
    ExrRoundTrip.ChannelsSmall();
  }

  lemma {:induction false} HeaderBounded(header: seq<Attribute>, most: nat)
    requires forall i :: 0 <= i < |header| ==> AttributeSize(header[i]) <= most
    ensures HeaderSize(header) <= 1 + Blocks(|header|, most)
    decreases |header|
  {
    hide AttributeSize;
    if header != [] { HeaderBounded(header[..|header| - 1], most); }
  }

  lemma HeaderSmall(width: nat, height: nat)
    ensures HeaderSize(Header(width, height)) <= 1601
  {
    hide HeaderSize, AttributeSize, Entry, Bounds;
    ChannelsSize();
    var header := Header(width, height);
    forall i | 0 <= i < |header| ensures AttributeSize(header[i]) <= 200 {
      var entries := ExrRoundTrip.FileEntries(width, height);
      assert header[i] == Entry(entries[i].0, entries[i].1) && ValueSize(entries[i].1) <= 73;
      EntrySmall(entries[i].0, entries[i].1);
    }
    HeaderBounded(header, 200);
    BlocksIsProduct(8, 200);
  }

  lemma {:induction false} BlocksGrow(n: nat, a: nat, b: nat)
    requires a <= b
    ensures Blocks(n, a) <= Blocks(n, b)
  {
    if n > 0 { BlocksGrow(n - 1, a, b); }
  }

  // Widths below 2^28 and heights up to 2^31 stay clear of the largest stream position.
  lemma FileFits(width: nat, rows: seq<seq<nat>>)
    requires Rows(rows, width) && width < 0x1000_0000 && |rows| <= 0x8000_0000
    ensures |File(width, rows)| < 0x8000_0000_0000_0000
  {
    hide File, Rows, Header, HeaderSize;
    FileSize(width, rows);
    HeaderSmall(width, |rows|);
    BlocksGrow(|rows|, 8 + 8 * width, 0x8000_0000);
    BlocksMonotone(|rows|, 0x8000_0000, 0x8000_0000);
    BlocksIsProduct(0x8000_0000, 0x8000_0000);
  }

  // ---- Both ends together ----

  // What a channel value is after writing and reading: decoded from what was stored for it.
  ghost predicate Restored(floats: bool, v: nat, out: nat) {
    exists h: nat :: ExrWriter.Stores(floats, v, h) && F.Decodes(h, out)
  }

  ghost predicate ChannelsRestored(floats: bool, original: seq<nat>, out: seq<nat>) {
    |original| == |out| && forall i :: 0 <= i < |original| ==> Restored(floats, original[i], out[i])
  }

  ghost predicate RowRestored(floats: bool, pixels: seq<nat>, start: nat, out: seq<nat>, outStart: nat, n: nat) {
    && start + n <= |pixels| && outStart + n <= |out|
    && ChannelsRestored(floats, pixels[start..start + n], out[outStart..outStart + n])
  }

  lemma RowIsRestored(row: seq<nat>, floats: bool, pixels: seq<nat>, start: nat, out: seq<nat>, outStart: nat)
    requires ExrWriter.RowFor(row, floats, pixels, start) && ExrInput.RowDecoded(row, out, outStart)
    ensures RowRestored(floats, pixels, start, out, outStart, |row|)
  {
    hide ExrWriter.Stores, F.Decodes;
    var n := |row|;
    var original, final := pixels[start..start + n], out[outStart..outStart + n];
    forall i | 0 <= i < n ensures Restored(floats, original[i], final[i]) {
      assert ExrWriter.Stores(floats, pixels[start + i], row[i]) && F.Decodes(row[i], out[outStart + i]);
    }
  }

  // Half-precision pixels come back as their own values.
  lemma HalvesRestored(v: nat, out: nat)
    requires Restored(false, v, out)
    ensures F.Decodes(v, out)
  {
  }

  // Writing an image with any valid stride and reading the file back gives the same dimensions, and at every
  // pixel and channel the value decoded from the binary16 value of the original.
  method WriteAndRead(width: nat, height: nat, pixels: seq<nat>, stride: nat,
                      floats: bool) returns (r: Result<ExrInput.Image>)
    requires forall i :: 0 <= i < |pixels| ==> if floats then pixels[i] < WRAP32 else pixels[i] < 0x1_0000
    requires |pixels| < WRAP64 && 4 * width <= stride && stride * height <= |pixels|
    requires 0 < width < 0x1000_0000 && 0 < height <= 0x8000_0000
    ensures r.Ok? && r.value.width == width && r.value.height == height
    ensures |r.value.pixels| == 4 * width * height
    ensures forall y :: 0 <= y < height ==>
              RowRestored(floats, pixels, Blocks(y, stride), r.value.pixels, Blocks(y, 4 * width), 4 * width)
  {
    hide File, Reading, ExrWriter.RowFor, ExrInput.RowDecoded, RowRestored, Blocks;
    ExrWriter.AcceptedHoldsRows(width, height, |pixels|, stride);
    ExrWriter.StridesHoldRows(width, height, |pixels|, stride);
    var written := ExrWriter.WriteRgba16f(width, height, pixels, stride, floats);
    ghost var rows :| ExrWriter.RowsFor(rows, floats, width, pixels, stride, height)
              && written.bytes == File(width, rows);
    FileFits(width, rows);
    ExrRoundTrip.RoundTrip(width, rows);
    r := ExrInput.ReadRgba32f(written.bytes);
    BlocksIsProduct(height, 4 * width);
    forall y | 0 <= y < height
      ensures RowRestored(floats, pixels, Blocks(y, stride), r.value.pixels, Blocks(y, 4 * width), 4 * width)
    {
      RowIsRestored(rows[y], floats, pixels, Blocks(y, stride), r.value.pixels, Blocks(y, 4 * width));
    }
  }

  // The same for half-precision pixels: each comes back as its own value in binary32.
  method WriteAndReadHalves(width: nat, height: nat, pixels: seq<nat>, stride: nat) returns (r: Result<ExrInput.Image>)
    requires forall i :: 0 <= i < |pixels| ==> pixels[i] < 0x1_0000
    requires |pixels| < WRAP64 && 4 * width <= stride && stride * height <= |pixels|
    requires 0 < width < 0x1000_0000 && 0 < height <= 0x8000_0000
    ensures r.Ok? && r.value.width == width && r.value.height == height
    ensures forall y :: 0 <= y < height ==>
              HalvesDecoded(pixels, Blocks(y, stride), r.value.pixels, Blocks(y, 4 * width), 4 * width)
  {
    hide RowRestored, Blocks, HalvesDecoded;
    r := WriteAndRead(width, height, pixels, stride, false);
    forall y | 0 <= y < height
      ensures HalvesDecoded(pixels, Blocks(y, stride), r.value.pixels, Blocks(y, 4 * width), 4 * width)
    {
      RowOfHalves(pixels, Blocks(y, stride), r.value.pixels, Blocks(y, 4 * width), 4 * width);
    }
  }

  ghost predicate HalvesDecoded(pixels: seq<nat>, start: nat, out: seq<nat>, outStart: nat, n: nat) {
    && start + n <= |pixels| && outStart + n <= |out|
    && forall i :: start <= i < start + n ==> F.Decodes(pixels[i], out[i - start + outStart])
  }

  lemma RowOfHalves(pixels: seq<nat>, start: nat, out: seq<nat>, outStart: nat, n: nat)
    requires RowRestored(false, pixels, start, out, outStart, n)
    ensures HalvesDecoded(pixels, start, out, outStart, n)
  {
    hide F.Decodes, Restored;
    var original, final := pixels[start..start + n], out[outStart..outStart + n];
    forall i | start <= i < start + n ensures F.Decodes(pixels[i], out[i - start + outStart]) {
      assert original[i - start] == pixels[i] && final[i - start] == out[i - start + outStart];
      HalvesRestored(original[i - start], final[i - start]);
    }
  }
}
