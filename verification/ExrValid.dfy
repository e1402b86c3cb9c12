// Which files the reader accepts: exactly the valid ones, where valid means that header, offset table and scan line
// blocks are laid out as the writer lays them out, with any attributes the reader does not know in between and the
// blocks anywhere in the file.
module ExrValid {
  import opened Wrappers
  import opened ExrFormat
  import opened ExrReader
  import opened ExrRoundTrip

  // ---- Bytes ----

  lemma AtJoin(data: seq<byte>, pos: nat, a: seq<byte>, b: seq<byte>)
    requires At(data, pos, a) && At(data, pos + |a|, b)
    ensures At(data, pos, a + b)
  {
    assert data[pos..pos + |a + b|] == data[pos..pos + |a|] + data[pos + |a|..pos + |a| + |b|];
  }

  lemma {:induction false} LittleOf(bs: seq<byte>)
    ensures Little(Value(bs), |bs|) == bs
  {
    if bs != [] {
      LittleOf(bs[1..]);
      assert bs == [bs[0]] + bs[1..];
    }
  }

  lemma NumberAt(data: seq<byte>, pos: nat, n: nat)
    requires Number(data, pos, n).Ok?
    ensures At(data, pos, Little(Number(data, pos, n).value, n)) && Number(data, pos, n).value < Range(n)
  {
    hide Little, Value;
    LittleOf(data[pos..pos + n]);
    ValueBounded(data[pos..pos + n]);
  }

  lemma {:induction false} StringAt(data: seq<byte>, pos: nat)
    requires StringZ(data, pos).Ok?
    ensures var (s, end) := StringZ(data, pos).value;
            At(data, pos, StringBytes(s)) && Printable(s) && end == pos + |s| + 1
    decreases |data| - pos
  {
    if data[pos] != 0 {
      StringAt(data, pos + 1);
      var s := StringZ(data, pos + 1).value.0;
      assert [data[pos]] + s + [0] == [data[pos]] + StringBytes(s);
      AtJoin(data, pos, [data[pos]], StringBytes(s));
    }
  }

  lemma Bits32Back(v: nat)
    requires v < WRAP32
    ensures Bits32(Signed32(v)) == v && Int32(Signed32(v))
  {
  }

  // ---- Values of known attributes ----

  lemma BoxFound(data: seq<byte>, pos: nat)
    requires BoxAt(data, pos).Ok?
    ensures At(data, pos, BoxBytes(BoxAt(data, pos).value)) && InRange(BoxAt(data, pos).value)
  {
    hide Little, At, Bits32, Signed32, Int32;
    Ranges();
    NumberAt(data, pos, 4);
    NumberAt(data, pos + 4, 4);
    NumberAt(data, pos + 8, 4);
    NumberAt(data, pos + 12, 4);
    var a, b := Number(data, pos, 4).value, Number(data, pos + 4, 4).value;
    var c, d := Number(data, pos + 8, 4).value, Number(data, pos + 12, 4).value;
    Bits32Back(a);
    Bits32Back(b);
    Bits32Back(c);
    Bits32Back(d);
    AtJoin(data, pos, Little(a, 4), Little(b, 4));
    AtJoin(data, pos, Little(a, 4) + Little(b, 4), Little(c, 4));
    AtJoin(data, pos, Little(a, 4) + Little(b, 4) + Little(c, 4), Little(d, 4));
  }

  lemma ByteAt(data: seq<byte>, pos: nat)
    requires Number(data, pos, 1) == Ok(0)
    ensures At(data, pos, [0])
  {
    NumberAt(data, pos, 1);
    OneByte();
  }

  lemma FixedFound(data: seq<byte>, pos: nat, a: HeaderName, info: HeaderInfo) returns (v: AttributeValue)
    requires a != Channels && FixedPayload(data, pos, a, info).Ok?
    ensures Accepted(a, v) && At(data, pos, ValueBytes(v)) && ValueSize(v) == ExpectedSize(a)
    ensures FixedPayload(data, pos, a, info) == Ok(With(info, a, v))
  {
    hide Number, Little, BoxAt, BoxBytes, At, InRange;
    Ranges();
    match a
    case Compression =>
      v := Byte(NO_COMPRESSION);
      ByteAt(data, pos);
    case DataWindow =>
      v := Box(BoxAt(data, pos).value);
      BoxFound(data, pos);
    case DisplayWindow =>
      v := Box(BoxAt(data, pos).value);
      BoxFound(data, pos);
    case LineOrder =>
      v := Byte(INCREASING_Y);
      ByteAt(data, pos);
    case PixelAspectRatio =>
      v := Float(Number(data, pos, 4).value);
      NumberAt(data, pos, 4);
    case ScreenWindowCenter =>
      v := V2f(Number(data, pos, 4).value, Number(data, pos + 4, 4).value);
      NumberAt(data, pos, 4);
      NumberAt(data, pos + 4, 4);
      AtJoin(data, pos, Little(v.x, 4), Little(v.y, 4));
    case ScreenWindowWidth =>
      v := Float(Number(data, pos, 4).value);
      NumberAt(data, pos, 4);
  }

  lemma ChannelEntryFound(data: seq<byte>, pos: nat)
    requires ChannelEntry(data, pos).Ok?
    ensures At(data, pos, ChannelTail())
  {
    hide Little, Number, At;
    NumberAt(data, pos, 4);
    NumberAt(data, pos + 4, 4);
    NumberAt(data, pos + 8, 4);
    NumberAt(data, pos + 12, 4);
    FourZeros();
    AtJoin(data, pos, Little(HALF_PIXEL_TYPE, 4), [0, 0, 0, 0]);
    AtJoin(data, pos, Little(HALF_PIXEL_TYPE, 4) + [0, 0, 0, 0], Little(1, 4));
    AtJoin(data, pos, Little(HALF_PIXEL_TYPE, 4) + [0, 0, 0, 0] + Little(1, 4), Little(1, 4));
  }

  lemma {:induction false} ChannelNamesFound(data: seq<byte>, pos: nat, before: seq<seq<byte>>)
    returns (names: seq<seq<byte>>)
    requires ChannelNames(data, pos, before).Ok?
    ensures ChannelNames(data, pos, before) == Ok((before + names, pos + |ChannelBytes(names)|))
    ensures At(data, pos, ChannelBytes(names))
    decreases |data| - pos
  {
    hide At, ChannelTail, StringZ, ChannelEntry, StringBytes, Printable;
    StringAt(data, pos);
    var (name, p) := StringZ(data, pos).value;
    StringBytesSize(name);
    if name == [] {
      names := [];
      EmptyString();
      assert before + [] == before;
    } else {
      ChannelEntryFound(data, p);
      var rest := ChannelNamesFound(data, p + 16, before + [name]);
      names := [name] + rest;
      AtJoin(data, pos, StringBytes(name), ChannelTail());
      AtJoin(data, pos, StringBytes(name) + ChannelTail(), ChannelBytes(rest));
      assert names[1..] == rest && before + [name] + rest == before + names;
    }
  }

  // ---- Headers ----

  // An attribute that the reader knows, or one under any other name.
  datatype Item = Own(a: HeaderName, v: AttributeValue) | Foreign(name: seq<byte>, kind: seq<byte>, payload: seq<byte>)

  predicate ItemOk(x: Item) {
    match x
    case Own(a, v) => Accepted(a, v)
    case Foreign(name, kind, payload) =>
      && name != [] && Printable(name) && Printable(kind) && |payload| < 0x8000_0000
      && forall a: HeaderName :: name != Name(a)
  }

  predicate ItemsOk(items: seq<Item>) {
    forall x <- items :: ItemOk(x)
  }

  function ItemBytes(x: Item): seq<byte> {
    match x
    case Own(a, v) => AttributeBytes(Entry(a, v))
    case Foreign(name, kind, payload) => StringBytes(name) + StringBytes(kind) + Little(|payload|, 4) + payload
  }

  function ItemsBytes(items: seq<Item>): seq<byte> {
    if items == [] then [0] else ItemBytes(items[0]) + ItemsBytes(items[1..])
  }

  // The header without the attributes that the reader does not know.
  function OwnOnly(items: seq<Item>): Entries {
    if items == [] then []
    else if items[0].Own? then [(items[0].a, items[0].v)] + OwnOnly(items[1..])
    else OwnOnly(items[1..])
  }

  lemma {:induction false} OwnAccepted(items: seq<Item>)
    requires ItemsOk(items)
    ensures AllAccepted(OwnOnly(items))
  {
    if items != [] {
      assert items[0] in items && forall x <- items[1..] :: x in items;
      OwnAccepted(items[1..]);
    }
  }

  lemma UnknownName(name: seq<byte>)
    ensures Known(name) == None <==> forall a: HeaderName :: name != Name(a)
    ensures forall a: HeaderName :: Known(name) == Some(a) ==> name == Name(a)
  {
    hide Name;
    if forall a: HeaderName :: name != Name(a) {
      assert name != Name(Channels) && name != Name(Compression) && name != Name(DataWindow);
      assert name != Name(DisplayWindow) && name != Name(LineOrder) && name != Name(PixelAspectRatio);
      assert name != Name(ScreenWindowCenter) && name != Name(ScreenWindowWidth);
    }
    if Known(name) == None {
      forall a: HeaderName ensures name != Name(a) { NameKnown(a); }
    }
  }

  // An attribute of an unknown name is passed over, with its payload.
  lemma ForeignBack(data: seq<byte>, pos: nat, x: Item, info: HeaderInfo)
    requires x.Foreign? && ItemOk(x) && At(data, pos, ItemBytes(x))
    ensures Attributes(data, pos, info) == Attributes(data, pos + |ItemBytes(x)|, info)
  {
    hide At, Name, StringZ, Number, Little, Known, StringBytes, Printable, Attributes;
    var Foreign(name, kind, payload) := x;
    AtParts(data, pos, StringBytes(name) + StringBytes(kind) + Little(|payload|, 4), payload);
    AtParts(data, pos, StringBytes(name) + StringBytes(kind), Little(|payload|, 4));
    AtParts(data, pos, StringBytes(name), StringBytes(kind));
    StringBytesSize(name);
    StringBytesSize(kind);
    StringBack(data, pos, name);
    var p := pos + |name| + 1;
    StringBack(data, p, kind);
    var q := p + |kind| + 1;
    Ranges();
    NumberBack(data, q, |payload|, 4);
    UnknownName(name);
    AttributeStep(data, pos, info, name, p, kind, q, |payload|, info, q + 4 + |payload|);
  }

  // A header with any attributes of unknown names anywhere reads back as the header without them.
  lemma {:induction false} ItemsBack(data: seq<byte>, pos: nat, items: seq<Item>, info: HeaderInfo)
    requires ItemsOk(items) && At(data, pos, ItemsBytes(items))
    ensures AllAccepted(OwnOnly(items))
    ensures Attributes(data, pos, info) == Ok((WithAll(info, OwnOnly(items)), pos + |ItemsBytes(items)|))
    decreases |items|
  {
    hide At, AttributeBytes, With, Accepted, Attributes, StringZ, StringBytes, Printable, Entry, ItemBytes, AllAccepted;
    OwnAccepted(items);
    if items == [] {
      EmptyString();
      StringBack(data, pos, []);
      EndOfHeader(data, pos, info);
      NothingWith(info);
    } else {
      var x, rest := items[0], items[1..];
      assert x in items && forall y <- rest :: y in items;
      AtParts(data, pos, ItemBytes(x), ItemsBytes(rest));
      if x.Own? {
        OwnBack(data, pos, x, info);
        ItemsBack(data, pos + |ItemBytes(x)|, rest, With(info, x.a, x.v));
        WithFirst(info, x.a, x.v, OwnOnly(rest));
      } else {
        ForeignBack(data, pos, x, info);
        ItemsBack(data, pos + |ItemBytes(x)|, rest, info);
      }
    }
  }

  lemma OwnBack(data: seq<byte>, pos: nat, x: Item, info: HeaderInfo)
    requires x.Own? && ItemOk(x) && At(data, pos, ItemBytes(x))
    ensures Attributes(data, pos, info) == Attributes(data, pos + |ItemBytes(x)|, With(info, x.a, x.v))
  {
    hide At, Attributes, AttributeBytes, Entry, With, Accepted;
    AttributeBack(data, pos, x.a, x.v, info);
  }

  lemma WithFirst(info: HeaderInfo, a: HeaderName, v: AttributeValue, rest: Entries)
    requires Accepted(a, v) && AllAccepted(rest)
    ensures AllAccepted([(a, v)] + rest) && WithAll(info, [(a, v)] + rest) == WithAll(With(info, a, v), rest)
  {
    hide Accepted, With;
    assert ([(a, v)] + rest)[1..] == rest;
  }

  lemma PayloadFound(data: seq<byte>, pos: nat, a: HeaderName, kind: seq<byte>, size: nat, info: HeaderInfo)
    returns (v: AttributeValue)
    requires Payload(data, pos, Name(a), kind, size, info).Ok?
    ensures kind == Kind(a) && Accepted(a, v) && size == ValueSize(v) && At(data, pos, ValueBytes(v))
    ensures Payload(data, pos, Name(a), kind, size, info) == Ok((With(info, a, v), pos + size))
  {
    NameKnown(a);
    hide Known, Name, Kind, FixedPayload, ChannelNames, ChannelBytes, ChannelListSize;
    if a == Channels {
      var names := ChannelNamesFound(data, pos, []);
      assert [] + names == names;
      v := ChannelList(CHANNEL_NAMES);
      ChannelListSizeIs(CHANNEL_NAMES);
    } else {
      v := FixedFound(data, pos, a, info);
    }
  }

  lemma AttributesNext(data: seq<byte>, pos: nat, info: HeaderInfo)
    requires Attributes(data, pos, info).Ok? && StringZ(data, pos).Ok? && StringZ(data, pos).value.0 != []
    ensures var (name, p) := StringZ(data, pos).value;
            && StringZ(data, p).Ok?
            && var (kind, q) := StringZ(data, p).value;
               && Number(data, q, 4).Ok? && Number(data, q, 4).value < 0x8000_0000
               && var payload := Payload(data, q + 4, name, kind, Number(data, q, 4).value, info);
                  && payload.Ok? && Attributes(data, payload.value.1, payload.value.0) == Attributes(data, pos, info)
                  && payload.value.1 < |data|
  {
    hide Payload, Little, Value;
    var (name, p) := StringZ(data, pos).value;
    var (kind, q) := StringZ(data, p).value;
    NumberAt(data, q, 4);
    Ranges();
    var (info', end) := Payload(data, q + 4, name, kind, Number(data, q, 4).value, info).value;
    assert StringZ(data, end).Ok?;
  }

  lemma ForeignPayload(data: seq<byte>, pos: nat, name: seq<byte>, kind: seq<byte>, size: nat, info: HeaderInfo)
    requires Known(name) == None
    ensures Payload(data, pos, name, kind, size, info) == Ok((info, pos + size))
  {
    hide Known;
  }

  lemma AtSelf(data: seq<byte>, pos: nat, n: nat)
    requires pos + n <= |data|
    ensures At(data, pos, data[pos..pos + n])
  {
  }

  lemma PartsAt(data: seq<byte>, pos: nat, name: seq<byte>, p: nat, kind: seq<byte>, q: nat, size: nat,
                payload: seq<byte>)
    requires At(data, pos, StringBytes(name)) && p == pos + |name| + 1
    requires At(data, p, StringBytes(kind)) && q == p + |kind| + 1
    requires At(data, q, Little(size, 4)) && At(data, q + 4, payload)
    ensures var bs := StringBytes(name) + StringBytes(kind) + Little(size, 4) + payload;
            At(data, pos, bs) && |bs| == q + 4 + |payload| - pos && q + 4 + |payload| <= |data|
  {
    hide At, StringBytes, Little;
    StringBytesSize(name);
    StringBytesSize(kind);
    AtJoin(data, pos, StringBytes(name), StringBytes(kind));
    AtJoin(data, pos, StringBytes(name) + StringBytes(kind), Little(size, 4));
    AtJoin(data, pos, StringBytes(name) + StringBytes(kind) + Little(size, 4), payload);
    AtEnd(data, q + 4, payload);
  }

  lemma OwnSize(a: HeaderName, v: AttributeValue)
    requires ValueSize(v) < 0x8000_0000
    ensures AttributeBytes(Entry(a, v)) ==
            StringBytes(Name(a)) + StringBytes(Kind(a)) + Little(ValueSize(v), 4) + ValueBytes(v)
    ensures |ValueBytes(v)| == ValueSize(v)
  {
    hide Name, Kind, StringBytes, Little, ValueBytes, ValueSize;
    ValueSizeIs(v);
  }

  // Name, type and size of an attribute stand at pos, and its payload at q + 4.
  ghost predicate TokensAt(data: seq<byte>, pos: nat, name: seq<byte>, kind: seq<byte>, q: nat, size: nat) {
    && q == pos + |name| + 1 + |kind| + 1 && size < 0x8000_0000
    && name != [] && Printable(name) && Printable(kind)
    && At(data, pos, StringBytes(name)) && At(data, pos + |name| + 1, StringBytes(kind)) && At(data, q, Little(size, 4))
  }

  lemma TokensFound(data: seq<byte>, pos: nat, info: HeaderInfo)
    returns (name: seq<byte>, kind: seq<byte>, q: nat, size: nat)
    requires Attributes(data, pos, info).Ok? && StringZ(data, pos).Ok? && StringZ(data, pos).value.0 != []
    ensures TokensAt(data, pos, name, kind, q, size)
    ensures var payload := Payload(data, q + 4, name, kind, size, info);
            && payload.Ok? && Attributes(data, payload.value.1, payload.value.0) == Attributes(data, pos, info)
            && payload.value.1 < |data|
  {
    hide Attributes, Payload, Printable, Little, At, StringBytes, Signed32, Value;
    AttributesNext(data, pos, info);
    name := StringZ(data, pos).value.0;
    var p := StringZ(data, pos).value.1;
    kind, q := StringZ(data, p).value.0, StringZ(data, p).value.1;
    size := Number(data, q, 4).value;
    StringAt(data, pos);
    StringAt(data, p);
    NumberAt(data, q, 4);
  }

  lemma KnownFound(data: seq<byte>, pos: nat, a: HeaderName, kind: seq<byte>, q: nat, size: nat, info: HeaderInfo)
    returns (x: Item)
    requires TokensAt(data, pos, Name(a), kind, q, size) && Payload(data, q + 4, Name(a), kind, size, info).Ok?
    ensures x.Own? && ItemOk(x) && At(data, pos, ItemBytes(x)) && pos + |ItemBytes(x)| == q + 4 + size <= |data|
    ensures Payload(data, q + 4, Name(a), kind, size, info) == Ok((With(info, x.a, x.v), q + 4 + size))
  {
    hide At, Name, Kind, Payload, With, StringBytes, Printable, Little, ValueBytes, ValueSize, Accepted, AttributeBytes;
    var v := PayloadFound(data, q + 4, a, kind, size, info);
    x := Own(a, v);
    OwnSize(a, v);
    PartsAt(data, pos, Name(a), pos + |Name(a)| + 1, kind, q, size, ValueBytes(v));
  }

  lemma UnknownFound(data: seq<byte>, pos: nat, name: seq<byte>, kind: seq<byte>, q: nat, size: nat) returns (x: Item)
    requires TokensAt(data, pos, name, kind, q, size) && Known(name) == None && q + 4 + size <= |data|
    ensures x.Foreign? && ItemOk(x) && At(data, pos, ItemBytes(x)) && pos + |ItemBytes(x)| == q + 4 + size
  {
    hide At, Name, Known, StringBytes, Printable, Little;
    UnknownName(name);
    x := Foreign(name, kind, data[q + 4..q + 4 + size]);
    AtSelf(data, q + 4, size);
    PartsAt(data, pos, name, pos + |name| + 1, kind, q, size, x.payload);
  }

  // What precedes the rest of an accepted header.
  lemma ItemFound(data: seq<byte>, pos: nat, info: HeaderInfo) returns (x: Item)
    requires Attributes(data, pos, info).Ok? && StringZ(data, pos).Ok? && StringZ(data, pos).value.0 != []
    ensures ItemOk(x) && pos < pos + |ItemBytes(x)| <= |data| && At(data, pos, ItemBytes(x))
    ensures Attributes(data, pos, info) == Attributes(data, pos + |ItemBytes(x)|, WithItem(info, x))
  {
    hide At, Name, Payload, With, Known, ItemBytes, ItemOk, Attributes, StringZ;
    var name, kind, q, size := TokensFound(data, pos, info);
    UnknownName(name);
    if Known(name).Some? {
      x := KnownFound(data, pos, Known(name).value, kind, q, size, info);
    } else {
      ForeignPayload(data, q + 4, name, kind, size, info);
      x := UnknownFound(data, pos, name, kind, q, size);
    }
  }

  function WithItem(info: HeaderInfo, x: Item): HeaderInfo
    requires ItemOk(x)
  {
    if x.Own? then With(info, x.a, x.v) else info
  }

  lemma ItemJoins(data: seq<byte>, pos: nat, x: Item, rest: seq<Item>, info: HeaderInfo)
    requires ItemOk(x) && ItemsOk(rest) && AllAccepted(OwnOnly(rest))
    requires At(data, pos, ItemBytes(x)) && At(data, pos + |ItemBytes(x)|, ItemsBytes(rest))
    ensures var items := [x] + rest;
            && ItemsOk(items) && At(data, pos, ItemsBytes(items)) && AllAccepted(OwnOnly(items))
            && WithAll(info, OwnOnly(items)) == WithAll(WithItem(info, x), OwnOnly(rest))
            && |ItemsBytes(items)| == |ItemBytes(x)| + |ItemsBytes(rest)|
  {
    hide At, ItemBytes, With, WithAll, AllAccepted, Accepted;
    var items := [x] + rest;
    assert items[1..] == rest;
    AtJoin(data, pos, ItemBytes(x), ItemsBytes(rest));
    if x.Own? { WithFirst(info, x.a, x.v, OwnOnly(rest)); }
  }

  // Every accepted header is made of attributes that the reader accepts or does not know.
  lemma {:induction false} ItemsFound(data: seq<byte>, pos: nat, info: HeaderInfo) returns (items: seq<Item>)
    requires Attributes(data, pos, info).Ok?
    ensures ItemsOk(items) && At(data, pos, ItemsBytes(items)) && AllAccepted(OwnOnly(items))
    ensures Attributes(data, pos, info) == Ok((WithAll(info, OwnOnly(items)), pos + |ItemsBytes(items)|))
    decreases if pos < |data| then |data| - pos else 0
  {
    hide At, ItemBytes, ItemOk, StringBytes, Printable, AllAccepted, WithItem, Attributes, StringZ, WithAll;
    EndsOrGoesOn(data, pos, info);
    if StringZ(data, pos).value.0 == [] {
      items := [];
      StringAt(data, pos);
      EmptyString();
      NothingAccepted();
      NothingWith(info);
    } else {
      var x := ItemFound(data, pos, info);
      var rest := ItemsFound(data, pos + |ItemBytes(x)|, WithItem(info, x));
      items := [x] + rest;
      ItemJoins(data, pos, x, rest, info);
      hide ItemsBytes, OwnOnly;
    }
  }

  lemma NothingAccepted()
    ensures AllAccepted([])
  {
  }

  lemma EndsOrGoesOn(data: seq<byte>, pos: nat, info: HeaderInfo)
    requires Attributes(data, pos, info).Ok?
    ensures StringZ(data, pos).Ok?
    ensures StringZ(data, pos).value.0 == [] ==> Attributes(data, pos, info) == Ok((info, StringZ(data, pos).value.1))
  {
  }

  // ---- Scan line blocks ----

  lemma PlaneFound(data: seq<byte>, pos: nat, row: seq<nat>, channel: nat, n: nat)
    requires channel < 4 && 4 * n <= |row| && pos + 2 * n <= |data|
    requires forall x :: 0 <= x < n ==> Value(data[pos + 2 * x..pos + 2 * x + 2]) == row[4 * x + channel]
    ensures At(data, pos, Plane(row, channel, n))
  {
    hide Little, Value;
    if n > 0 {
      PlaneFound(data, pos, row, channel, n - 1);
      var x := n - 1;
      LittleOf(data[pos + 2 * x..pos + 2 * x + 2]);
      AtSelf(data, pos + 2 * x, 2);
      AtJoin(data, pos, Plane(row, channel, x), Little(row[4 * x + channel], 2));
    }
  }

  lemma HalvesOfPlane(data: seq<byte>, pos: nat, width: nat, row: seq<nat>, c: nat)
    requires c < 4 && pos + 8 * width <= |data| && |row| == 4 * width
    requires forall i :: 0 <= i < 4 * width ==> row[i] == HalfAt(data, pos, width, i)
    ensures At(data, pos + PlaneStart(width, c), Plane(row, c, width))
  {
    hide Value, Plane, At;
    var start := pos + PlaneStart(width, c);
    forall x | 0 <= x < width ensures Value(data[start + 2 * x..start + 2 * x + 2]) == row[4 * x + c] {
      assert (4 * x + c) % 4 == c && (4 * x + c) / 4 == x;
    }
    PlaneFound(data, start, row, c, width);
  }

  lemma AtSix(data: seq<byte>, pos: nat, a: seq<byte>, b: seq<byte>, c: seq<byte>, d: seq<byte>, e: seq<byte>,
              f: seq<byte>)
    requires At(data, pos, a) && At(data, pos + |a|, b) && At(data, pos + |a| + |b|, c)
    requires At(data, pos + |a| + |b| + |c|, d) && At(data, pos + |a| + |b| + |c| + |d|, e)
    requires At(data, pos + |a| + |b| + |c| + |d| + |e|, f)
    ensures At(data, pos, a + b + c + d + e + f)
  {
    hide At;
    AtJoin(data, pos, a, b);
    AtJoin(data, pos, a + b, c);
    AtJoin(data, pos, a + b + c, d);
    AtJoin(data, pos, a + b + c + d, e);
    AtJoin(data, pos, a + b + c + d + e, f);
  }

  lemma RowChecks(data: seq<byte>, offset: nat, y: nat, width: nat)
    requires RowAt(data, offset, y, width).Ok?
    ensures offset < 0x8000_0000_0000_0000 && offset + 8 + 8 * width <= |data|
    ensures Number(data, offset, 4) == Ok(Bits32(y)) && Number(data, offset + 4, 4) == Ok(Bits32(8 * width))
    ensures var row := RowAt(data, offset, y, width).value;
            |row| == 4 * width && forall i :: 0 <= i < 4 * width ==> row[i] == HalfAt(data, offset + 8, width, i)
  {
    hide Value, Little, HalfAt, At, Bits32;
    PackedSizes(width);
    NumberAt(data, offset, 4);
    Ranges();
    Bits32Small(y);
    SignedInjective(Number(data, offset, 4).value, Bits32(y));
  }

  lemma Bits32Small(x: nat)
    ensures Bits32(x) < WRAP32
  {
  }

  lemma SignedInjective(v: nat, w: nat)
    requires v < WRAP32 && w < WRAP32
    ensures Signed32(v) == Signed32(w) ==> v == w
  {
  }

  lemma HalvesSmall(data: seq<byte>, pos: nat, width: nat, i: nat)
    requires pos + 8 * width <= |data| && i < 4 * width
    ensures HalfAt(data, pos, width, i) < 0x1_0000
  {
    hide Value;
    var at := pos + PlaneStart(width, i % 4) + 2 * (i / 4);
    ValueBounded(data[at..at + 2]);
    Ranges();
  }

  // A block is accepted exactly if it is the block of that row, as the writer lays it out.
  lemma RowExactly(data: seq<byte>, offset: nat, y: nat, width: nat, row: seq<nat>)
    ensures RowAt(data, offset, y, width) == Ok(row) <==>
            && offset < 0x8000_0000_0000_0000 && |row| == 4 * width
            && (forall i :: 0 <= i < 4 * width ==> row[i] < 0x1_0000)
            && At(data, offset, Scanline(y, width, row))
  {
    hide Value, Little, Plane, At, HalfAt, Bits32, Number, RowAt, Scanline, PlaneStart;
    if RowAt(data, offset, y, width) == Ok(row) {
      RowChecks(data, offset, y, width);
      NumberAt(data, offset, 4);
      NumberAt(data, offset + 4, 4);
      forall i | 0 <= i < 4 * width ensures row[i] < 0x1_0000 { HalvesSmall(data, offset + 8, width, i); }
      BlockFound(data, offset, y, width, row);
    } else if offset < 0x8000_0000_0000_0000 && |row| == 4 * width
              && (forall i :: 0 <= i < 4 * width ==> row[i] < 0x1_0000)
              && At(data, offset, Scanline(y, width, row)) {
      RowBack(data, offset, y, width, row);
    }
  }

  lemma BlockFound(data: seq<byte>, offset: nat, y: nat, width: nat, row: seq<nat>)
    requires |row| == 4 * width && offset + 8 + 8 * width <= |data|
    requires At(data, offset, Little(Bits32(y), 4)) && At(data, offset + 4, Little(Bits32(8 * width), 4))
    requires forall i :: 0 <= i < 4 * width ==> row[i] == HalfAt(data, offset + 8, width, i)
    ensures At(data, offset, Scanline(y, width, row))
  {
    hide Value, Little, Plane, At, HalfAt, Bits32;
    HalvesOfPlane(data, offset + 8, width, row, 3);
    HalvesOfPlane(data, offset + 8, width, row, 2);
    HalvesOfPlane(data, offset + 8, width, row, 1);
    HalvesOfPlane(data, offset + 8, width, row, 0);
    AtSix(data, offset, Little(Bits32(y), 4), Little(Bits32(8 * width), 4), Plane(row, 3, width), Plane(row, 2, width),
          Plane(row, 1, width), Plane(row, 0, width));
  }

  // ---- Complete headers ----

  predicate Has(info: HeaderInfo, a: HeaderName) {
    match a
    case Channels => info.channels
    case Compression => info.compression
    case DataWindow => info.dataWindow.Some?
    case DisplayWindow => info.displayWindow.Some?
    case LineOrder => info.lineOrder
    case PixelAspectRatio => info.pixelAspectRatio.Some?
    case ScreenWindowCenter => info.screenWindowCenter.Some?
    case ScreenWindowWidth => info.screenWindowWidth.Some?
  }

  ghost predicate Occurs(a: HeaderName, es: Entries) {
    exists i :: 0 <= i < |es| && es[i].0 == a
  }

  lemma {:induction false} HasExactly(info: HeaderInfo, es: Entries, a: HeaderName)
    requires AllAccepted(es)
    ensures Has(WithAll(info, es), a) <==> Has(info, a) || Occurs(a, es)
    decreases |es|
  {
    if es != [] {
      assert forall b: HeaderName :: Has(With(info, es[0].0, es[0].1), b) <==> Has(info, b) || b == es[0].0;
      HasExactly(With(info, es[0].0, es[0].1), es[1..], a);
      assert forall i :: 0 < i < |es| ==> es[1..][i - 1] == es[i];
    }
  }

  // A header has all it needs exactly if each of the eight attributes occurs.
  lemma CompleteExactly(es: Entries)
    requires AllAccepted(es)
    ensures WithAll(NO_INFO, es).Complete() <==> forall a: HeaderName :: Occurs(a, es)
  {
    forall a: HeaderName
      ensures Has(WithAll(NO_INFO, es), a) <==> Occurs(a, es)
    {
      HasExactly(NO_INFO, es, a);
      assert !Has(NO_INFO, a);
    }
    hide WithAll, AllAccepted;
    var info := WithAll(NO_INFO, es);
    assert info.Complete() <==>
           Has(info, Channels) && Has(info, Compression) && Has(info, DataWindow) && Has(info, DisplayWindow)
           && Has(info, LineOrder) && Has(info, PixelAspectRatio) && Has(info, ScreenWindowCenter)
           && Has(info, ScreenWindowWidth);
    AllNames(info);
  }

  lemma AllNames(info: HeaderInfo)
    ensures (forall a: HeaderName :: Has(info, a)) <==>
            Has(info, Channels) && Has(info, Compression) && Has(info, DataWindow) && Has(info, DisplayWindow)
            && Has(info, LineOrder) && Has(info, PixelAspectRatio) && Has(info, ScreenWindowCenter)
            && Has(info, ScreenWindowWidth)
  {
    hide Has;
    if Has(info, Channels) && Has(info, Compression) && Has(info, DataWindow) && Has(info, DisplayWindow)
       && Has(info, LineOrder) && Has(info, PixelAspectRatio) && Has(info, ScreenWindowCenter)
       && Has(info, ScreenWindowWidth) {
      forall a: HeaderName ensures Has(info, a) {
        match a
        case Channels =>
        case Compression =>
        case DataWindow =>
        case DisplayWindow =>
        case LineOrder =>
        case PixelAspectRatio =>
        case ScreenWindowCenter =>
        case ScreenWindowWidth =>
      }
    }
  }

  lemma {:induction false} WindowInRange(info: HeaderInfo, es: Entries)
    requires AllAccepted(es) && (info.dataWindow.Some? ==> InRange(info.dataWindow.value))
    ensures WithAll(info, es).dataWindow.Some? ==> InRange(WithAll(info, es).dataWindow.value)
    decreases |es|
  {
    if es != [] { WindowInRange(With(info, es[0].0, es[0].1), es[1..]); }
  }

  // ---- Files ----

  // Magic number, version, header, offset table, and each row's block where the table says.
  ghost predicate ValidFile(data: seq<byte>, items: seq<Item>, offsets: seq<nat>, width: nat, rows: seq<seq<nat>>) {
    && At(data, 0, Little(MAGIC, 4))
    && (At(data, 4, Little(2, 4)) || At(data, 4, Little(0x402, 4)))
    && ItemsOk(items) && At(data, 8, ItemsBytes(items))
    && ValidHeader(OwnOnly(items), width, |rows|)
    && Rows(rows, width)
    && ValidBlocks(data, 8 + |ItemsBytes(items)|, offsets, width, rows)
  }

  // All eight attributes are there, and the last data window begins at the origin.
  ghost predicate ValidHeader(es: Entries, width: nat, height: nat) {
    && AllAccepted(es)
    && (forall a: HeaderName :: Occurs(a, es))
    && 0 < width <= 0x8000_0000 && 0 < height <= 0x8000_0000
    && WithAll(NO_INFO, es).dataWindow == Some(Box2i(0, 0, width - 1, height - 1))
  }

  ghost predicate ValidBlocks(data: seq<byte>, table: nat, offsets: seq<nat>, width: nat, rows: seq<seq<nat>>) {
    && |offsets| == |rows| && (forall y :: 0 <= y < |rows| ==> |rows[y]| == 4 * width)
    && table + 8 * |rows| <= |data|
    && forall y :: 0 <= y < |rows| ==> BlockAt(data, table, offsets[y], y, width, rows[y])
  }

  ghost predicate BlockAt(data: seq<byte>, table: nat, offset: nat, y: nat, width: nat, row: seq<nat>)
    requires |row| == 4 * width
  {
    && offset < 0x8000_0000_0000_0000
    && At(data, table + 8 * y, Little(offset, 8)) && At(data, offset, Scanline(y, width, row))
  }

  lemma DimensionsExactly(es: Entries, width: nat, height: nat)
    requires AllAccepted(es)
    ensures Dimensions(WithAll(NO_INFO, es)) == Ok((width, height)) <==> ValidHeader(es, width, height)
  {
    CompleteExactly(es);
    WindowInRange(NO_INFO, es);
    hide WithAll, AllAccepted;
  }

  lemma OffsetRead(data: seq<byte>, pos: nat, offset: nat)
    requires pos + 8 <= |data|
    ensures Value(data[pos..pos + 8]) < WRAP64
    ensures offset < WRAP64 ==> (Value(data[pos..pos + 8]) == offset <==> At(data, pos, Little(offset, 8)))
  {
    hide Value, Little;
    Ranges();
    ValueBounded(data[pos..pos + 8]);
    LittleOf(data[pos..pos + 8]);
    LittleBack(offset, 8);
  }

  lemma {:induction false} BlocksRead(data: seq<byte>, table: nat, offsets: seq<nat>, width: nat, rows: seq<seq<nat>>)
    requires Rows(rows, width) && ValidBlocks(data, table, offsets, width, rows)
    ensures RowsAt(data, table, width, |rows|) == Ok(rows)
    decreases |rows|
  {
    hide At, Scanline, Little, RowAt, Value;
    if rows != [] {
      var n := |rows| - 1;
      BlocksRead(data, table, offsets[..n], width, rows[..n]);
      assert BlockAt(data, table, offsets[n], n, width, rows[n]);
      OffsetRead(data, table + 8 * n, offsets[n]);
      RowExactly(data, offsets[n], n, width, rows[n]);
      assert rows == rows[..n] + [rows[n]];
    }
  }

  lemma {:induction false} BlocksFound(data: seq<byte>, table: nat, width: nat, rows: seq<seq<nat>>)
    returns (offsets: seq<nat>)
    requires table + 8 * |rows| <= |data| && RowsAt(data, table, width, |rows|) == Ok(rows)
    ensures Rows(rows, width) && ValidBlocks(data, table, offsets, width, rows)
    decreases |rows|
  {
    hide At, Scanline, Little, RowAt, Value;
    if rows == [] {
      offsets := [];
    } else {
      var n := |rows| - 1;
      var offset := Value(data[table + 8 * n..table + 8 * n + 8]);
      assert RowsAt(data, table, width, n) == Ok(rows[..n]) && RowAt(data, offset, n, width) == Ok(rows[n]);
      var before := BlocksFound(data, table, width, rows[..n]);
      offsets := before + [offset];
      OffsetRead(data, table + 8 * n, offset);
      RowExactly(data, offset, n, width, rows[n]);
      forall y | 0 <= y < |rows| ensures BlockAt(data, table, offsets[y], y, width, rows[y]) {
        if y < n { assert BlockAt(data, table, before[y], y, width, rows[..n][y]); }
      }
    }
  }

  lemma VersionsExactly(v: nat)
    ensures v % 256 == VERSION && (v - v % 256 == 0 || v - v % 256 == LONG_NAMES_FLAG) <==> v == 2 || v == 0x402
  {
  }

  lemma NumberExactly(data: seq<byte>, pos: nat, v: nat)
    requires v < WRAP32
    ensures Number(data, pos, 4) == Ok(v) <==> At(data, pos, Little(v, 4))
  {
    hide Little, Value;
    Ranges();
    if Number(data, pos, 4) == Ok(v) { NumberAt(data, pos, 4); }
    if At(data, pos, Little(v, 4)) { NumberBack(data, pos, v, 4); }
  }

  // Every valid file is read, whatever attributes it has besides and wherever its blocks are.
  lemma ValidIsRead(data: seq<byte>, items: seq<Item>, offsets: seq<nat>, width: nat, rows: seq<seq<nat>>)
    requires ValidFile(data, items, offsets, width, rows)
    ensures Reading(data) == Ok(Stored(width, |rows|, WithAll(NO_INFO, OwnOnly(items)), rows))
  {
    hide At, Little, Number, ItemsBytes, ItemsOk, Attributes, OwnOnly, WithAll, AllAccepted, Dimensions, RowsAt, Rows;
    hide ValidHeader, ValidBlocks;
    NumberExactly(data, 0, MAGIC);
    NumberExactly(data, 4, 2);
    NumberExactly(data, 4, 0x402);
    ItemsBack(data, 8, items, NO_INFO);
    DimensionsExactly(OwnOnly(items), width, |rows|);
    TableInside(data, 8 + |ItemsBytes(items)|, offsets, width, rows);
    BlocksRead(data, 8 + |ItemsBytes(items)|, offsets, width, rows);
    HeightPositive(OwnOnly(items), width, |rows|);
  }

  lemma HeightPositive(es: Entries, width: nat, height: nat)
    requires ValidHeader(es, width, height)
    ensures width > 0 && height > 0
  {
  }

  lemma TableInside(data: seq<byte>, table: nat, offsets: seq<nat>, width: nat, rows: seq<seq<nat>>)
    requires ValidBlocks(data, table, offsets, width, rows)
    ensures table + 8 * |rows| <= |data|
  {
  }

  // And every file that is read is a valid one.
  lemma ReadIsValid(data: seq<byte>) returns (items: seq<Item>, offsets: seq<nat>)
    requires Reading(data).Ok?
    ensures var image := Reading(data).value;
            && ValidFile(data, items, offsets, image.width, image.rows)
            && image.height == |image.rows| && image.info == WithAll(NO_INFO, OwnOnly(items))
  {
    hide At, Little, Number, ItemsBytes, ItemsOk, Attributes, OwnOnly, WithAll, AllAccepted, Dimensions, RowsAt, Rows;
    hide ValidHeader, ValidBlocks;
    var image := Reading(data).value;
    NumberExactly(data, 0, MAGIC);
    VersionsExactly(Number(data, 4, 4).value);
    NumberExactly(data, 4, 2);
    NumberExactly(data, 4, 0x402);
    items := ItemsFound(data, 8, NO_INFO);
    DimensionsExactly(OwnOnly(items), image.width, image.height);
    offsets := BlocksFound(data, 8 + |ItemsBytes(items)|, image.width, image.rows);
  }
}
