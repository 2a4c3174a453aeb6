/** The byte layout of a serialised CAEN event (`caen_output_data<uint16_t>`): encoding and decoding as functions. */
module Codec {
  type Byte = b: nat | b < 256

  // The most bytes a C++ vector holds on a 64-bit platform.
  const MAX_BYTES: nat := 0x7FFF_FFFF_FFFF_FFFF
  // One more than the largest size_t.
  const SIZE_MODULUS: nat := 0x1_0000_0000_0000_0000

  type U16 = n: nat | n < 0x1_0000
  type U32 = n: nat | n < 0x1_0000_0000
  type U64 = n: nat | n < SIZE_MODULUS

  datatype Channel = Channel(channel: U16, xs: seq<U16>, ys: seq<U16>)

  datatype Event = Event(number: U32, timestamp: U64, device: seq<Byte>, channels: seq<Channel>)

  // --- little-endian integers ---

  /** How many values fit in `n` bytes. */
  function Limit(n: nat): (l: nat)
    ensures l > 0
  {
    if n == 0 then 1 else 256 * Limit(n - 1)
  }

  function Le(v: nat, n: nat): (bs: seq<Byte>)
    ensures |bs| == n
  {
    if n == 0 then [] else [v % 256] + Le(v / 256, n - 1)
  }

  function Value(bs: seq<Byte>): nat {
    if bs == [] then 0 else bs[0] + 256 * Value(bs[1..])
  }

  lemma {:induction false} ValueOfLe(v: nat, n: nat)
    requires v < Limit(n)
    ensures Value(Le(v, n)) == v
  {
    if n > 0 {
      ValueOfLe(v / 256, n - 1);
      assert Le(v, n)[1..] == Le(v / 256, n - 1);
    }
  }

  lemma {:induction false} LeOfValue(bs: seq<Byte>)
    ensures Value(bs) < Limit(|bs|) && Le(Value(bs), |bs|) == bs
  {
    if bs != [] {
      LeOfValue(bs[1..]);
      Digits(bs[0], Value(bs[1..]));
      assert bs == [bs[0]] + bs[1..];
    }
  }

  lemma Digits(b: Byte, v: nat)
    ensures (b + 256 * v) % 256 == b && (b + 256 * v) / 256 == v
  {
  }

  lemma Limits()
    ensures Limit(2) == 0x1_0000 && Limit(4) == 0x1_0000_0000 && Limit(8) == SIZE_MODULUS
  {
    assert Limit(2) == 0x1_0000;
    assert Limit(4) == 0x1_0000_0000;
    assert Limit(6) == 0x1_0000_0000_0000;
  }

  // --- encoding ---

  function EncodeSamples(xs: seq<U16>): (bs: seq<Byte>)
    ensures |bs| == 2 * |xs|
  {
    if xs == [] then [] else Le(xs[0], 2) + EncodeSamples(xs[1..])
  }

  function EncodeVector(xs: seq<U16>): seq<Byte> {
    Le(|xs|, 8) + EncodeSamples(xs)
  }

  function EncodeChannel(c: Channel): seq<Byte> {
    Le(c.channel, 2) + EncodeVector(c.xs) + EncodeVector(c.ys)
  }

  function EncodeChannels(cs: seq<Channel>): seq<Byte> {
    if cs == [] then [] else EncodeChannel(cs[0]) + EncodeChannels(cs[1..])
  }

  function EncodeString(s: seq<Byte>): seq<Byte> {
    Le(|s|, 8) + s
  }

  function EncodeHeader(e: Event): seq<Byte> {
    Le(e.number, 4) + Le(e.timestamp, 8) + EncodeString(e.device)
  }

  function Encode(e: Event): seq<Byte> {
    EncodeHeader(e) + (Le(|e.channels|, 8) + EncodeChannels(e.channels))
  }

  // --- decoding ---

  datatype Read<T> = Failed | Got(value: T, pos: nat)

  /** `Binary::memread`: `num` bytes from position `from`, with the overflow test on 64-bit sizes. */
  function ReadBytes(buf: seq<Byte>, from: nat, num: nat): Read<seq<Byte>> {
    if from + num >= SIZE_MODULUS then Failed
    else if from + num > |buf| then Failed
    else Got(buf[from..from + num], from + num)
  }

  function ReadNumber(buf: seq<Byte>, pos: nat, width: nat): (r: Read<nat>)
    ensures r.Got? ==> r.value < Limit(width)
  {
    match ReadBytes(buf, pos, width)
    case Failed => Failed
    case Got(bs, p) => LeOfValue(bs); Got(Value(bs), p)
  }

  function Samples(bs: seq<Byte>): seq<U16>
    requires |bs| % 2 == 0
  {
    if bs == [] then [] else Limits(); LeOfValue(bs[..2]); [Value(bs[..2])] + Samples(bs[2..])
  }

  /** A size, a vector resized to it (which throws above the vector limit), and that many samples. The byte count is
      computed modulo 2^64. */
  function ReadVector(buf: seq<Byte>, pos: nat): Read<seq<U16>> {
    match ReadNumber(buf, pos, 8)
    case Failed => Failed
    case Got(size, p) =>
      if 2 * size > MAX_BYTES then Failed
      else
        match ReadBytes(buf, p, 2 * size % SIZE_MODULUS)
        case Failed => Failed
        case Got(bs, q) => Got(Samples(bs), q)
  }

  function ReadChannel(buf: seq<Byte>, pos: nat): Read<Channel> {
    match ReadNumber(buf, pos, 2)
    case Failed => Failed
    case Got(channel, p) =>
      match ReadVector(buf, p)
      case Failed => Failed
      case Got(xs, q) =>
        match ReadVector(buf, q)
        case Failed => Failed
        case Got(ys, r) => Limits(); Got(Channel(channel, xs, ys), r)
  }

  function ReadChannels(buf: seq<Byte>, pos: nat, count: nat): Read<seq<Channel>>
    decreases count
  {
    if count == 0 then Got([], pos)
    else
      match ReadChannel(buf, pos)
      case Failed => Failed
      case Got(c, p) =>
        match ReadChannels(buf, p, count - 1)
        case Failed => Failed
        case Got(cs, q) => Got([c] + cs, q)
  }

  function ReadString(buf: seq<Byte>, pos: nat): Read<seq<Byte>> {
    match ReadNumber(buf, pos, 8)
    case Failed => Failed
    case Got(size, p) => ReadBytes(buf, p, size)
  }

  function ReadHeader(buf: seq<Byte>, pos: nat): Read<Event> {
    match ReadNumber(buf, pos, 4)
    case Failed => Failed
    case Got(number, p) =>
      match ReadNumber(buf, p, 8)
      case Failed => Failed
      case Got(timestamp, q) =>
        match ReadString(buf, q)
        case Failed => Failed
        case Got(device, r) => Limits(); Got(Event(number, timestamp, device, []), r)
  }

  function Decode(buf: seq<Byte>, pos: nat): Read<Event> {
    match ReadHeader(buf, pos)
    case Failed => Failed
    case Got(e, p) =>
      match ReadNumber(buf, p, 8)
      case Failed => Failed
      case Got(count, q) =>
        match ReadChannels(buf, q, count)
        case Failed => Failed
        case Got(cs, r) => Got(e.(channels := cs), r)
  }

  // --- each reader succeeds exactly on the bytes of an encoding ---

  /** `bs` stands in `buf` at `pos`. */
  ghost predicate At(buf: seq<Byte>, pos: nat, bs: seq<Byte>) {
    pos + |bs| <= |buf| && buf[pos..pos + |bs|] == bs
  }

  lemma AtBoth(buf: seq<Byte>, pos: nat, a: seq<Byte>, b: seq<Byte>)
    ensures At(buf, pos, a + b) <==> At(buf, pos, a) && At(buf, pos + |a|, b)
  {
    if pos + |a + b| <= |buf| {
      var s := buf[pos..pos + |a + b|];
      assert buf[pos..pos + |a|] == s[..|a|] && buf[pos + |a|..pos + |a| + |b|] == s[|a|..];
      assert s == s[..|a|] + s[|a|..];
    }
  }

  lemma ReadBytesIff(buf: seq<Byte>, pos: nat, bs: seq<Byte>, p: nat)
    requires |buf| <= MAX_BYTES
    ensures ReadBytes(buf, pos, |bs|) == Got(bs, p) <==> At(buf, pos, bs) && p == pos + |bs|
  {
  }

  lemma ReadNumberIff(buf: seq<Byte>, pos: nat, width: nat, v: nat, p: nat)
    requires |buf| <= MAX_BYTES
    ensures ReadNumber(buf, pos, width) == Got(v, p) <==>
            v < Limit(width) && At(buf, pos, Le(v, width)) && p == pos + width
  {
    if v < Limit(width) && At(buf, pos, Le(v, width)) {
      ValueOfLe(v, width);
    }
    if pos + width <= |buf| {
      LeOfValue(buf[pos..pos + width]);
    }
  }

  lemma {:induction false} SamplesOfEncoding(xs: seq<U16>)
    ensures Samples(EncodeSamples(xs)) == xs
  {
    if xs != [] {
      var bs := EncodeSamples(xs);
      assert bs[..2] == Le(xs[0], 2) && bs[2..] == EncodeSamples(xs[1..]);
      Limits();
      ValueOfLe(xs[0], 2);
      SamplesOfEncoding(xs[1..]);
    }
  }

  lemma {:induction false} EncodingOfSamples(bs: seq<Byte>)
    requires |bs| % 2 == 0
    ensures EncodeSamples(Samples(bs)) == bs && 2 * |Samples(bs)| == |bs|
  {
    if bs != [] {
      LeOfValue(bs[..2]);
      EncodingOfSamples(bs[2..]);
      assert Samples(bs)[1..] == Samples(bs[2..]);
      assert bs == bs[..2] + bs[2..];
    }
  }

  lemma ReadVectorAccepts(buf: seq<Byte>, pos: nat, xs: seq<U16>)
    requires |buf| <= MAX_BYTES && At(buf, pos, EncodeVector(xs))
    ensures ReadVector(buf, pos) == Got(xs, pos + |EncodeVector(xs)|)
  {
    hide Limit, Le, Value, ReadNumber;
    AtBoth(buf, pos, Le(|xs|, 8), EncodeSamples(xs));
    Limits();
    ReadNumberIff(buf, pos, 8, |xs|, pos + 8);
    ReadBytesIff(buf, pos + 8, EncodeSamples(xs), pos + 8 + 2 * |xs|);
    SamplesOfEncoding(xs);
  }

  lemma ReadVectorFinds(buf: seq<Byte>, pos: nat, xs: seq<U16>, p: nat)
    requires |buf| <= MAX_BYTES && ReadVector(buf, pos) == Got(xs, p)
    ensures At(buf, pos, EncodeVector(xs)) && p == pos + |EncodeVector(xs)|
  {
    hide Limit, Le, Value, ReadNumber;
    var Got(size, q) := ReadNumber(buf, pos, 8);
    ReadNumberIff(buf, pos, 8, size, q);
    assert 2 * size % SIZE_MODULUS == 2 * size;
    var bs := ReadBytes(buf, q, 2 * size).value;
    ReadBytesIff(buf, q, bs, q + 2 * size);
    EncodingOfSamples(bs);
    AtBoth(buf, pos, Le(|xs|, 8), EncodeSamples(xs));
  }

  lemma ReadChannelAccepts(buf: seq<Byte>, pos: nat, c: Channel)
    requires |buf| <= MAX_BYTES && At(buf, pos, EncodeChannel(c))
    ensures ReadChannel(buf, pos) == Got(c, pos + |EncodeChannel(c)|)
  {
    hide Limit, Le, ReadNumber, ReadVector, EncodeVector;
    AtBoth(buf, pos, Le(c.channel, 2) + EncodeVector(c.xs), EncodeVector(c.ys));
    AtBoth(buf, pos, Le(c.channel, 2), EncodeVector(c.xs));
    Limits();
    ReadNumberIff(buf, pos, 2, c.channel, pos + 2);
    ReadVectorAccepts(buf, pos + 2, c.xs);
    ReadVectorAccepts(buf, pos + 2 + |EncodeVector(c.xs)|, c.ys);
  }

  lemma ReadChannelFinds(buf: seq<Byte>, pos: nat, c: Channel, p: nat)
    requires |buf| <= MAX_BYTES && ReadChannel(buf, pos) == Got(c, p)
    ensures At(buf, pos, EncodeChannel(c)) && p == pos + |EncodeChannel(c)|
  {
    hide Limit, Le, ReadNumber, ReadVector, EncodeVector;
    var Got(channel, q) := ReadNumber(buf, pos, 2);
    var Got(xs, r) := ReadVector(buf, q);
    ReadNumberIff(buf, pos, 2, channel, q);
    ReadVectorFinds(buf, q, xs, r);
    ReadVectorFinds(buf, r, c.ys, p);
    AtBoth(buf, pos, Le(c.channel, 2), EncodeVector(c.xs));
    AtBoth(buf, pos, Le(c.channel, 2) + EncodeVector(c.xs), EncodeVector(c.ys));
  }

  lemma {:induction false} ReadChannelsAccepts(buf: seq<Byte>, pos: nat, cs: seq<Channel>)
    requires |buf| <= MAX_BYTES && At(buf, pos, EncodeChannels(cs))
    ensures ReadChannels(buf, pos, |cs|) == Got(cs, pos + |EncodeChannels(cs)|)
    decreases |cs|
  {
    hide ReadChannel, EncodeChannel;
    if cs != [] {
      AtBoth(buf, pos, EncodeChannel(cs[0]), EncodeChannels(cs[1..]));
      ReadChannelAccepts(buf, pos, cs[0]);
      ReadChannelsAccepts(buf, pos + |EncodeChannel(cs[0])|, cs[1..]);
      assert cs == [cs[0]] + cs[1..];
    }
  }

  lemma {:induction false} ReadChannelsFinds(buf: seq<Byte>, pos: nat, count: nat, cs: seq<Channel>, p: nat)
    requires |buf| <= MAX_BYTES && pos <= |buf| && ReadChannels(buf, pos, count) == Got(cs, p)
    ensures |cs| == count && At(buf, pos, EncodeChannels(cs)) && p == pos + |EncodeChannels(cs)|
    decreases count
  {
    hide ReadChannel, EncodeChannel;
    if count > 0 {
      var Got(c, q) := ReadChannel(buf, pos);
      ReadChannelFinds(buf, pos, c, q);
      assert cs[0] == c;
      ReadChannelsFinds(buf, q, count - 1, cs[1..], p);
      AtBoth(buf, pos, EncodeChannel(c), EncodeChannels(cs[1..]));
    }
  }

  lemma ReadStringAccepts(buf: seq<Byte>, pos: nat, s: seq<Byte>)
    requires |buf| <= MAX_BYTES && At(buf, pos, EncodeString(s))
    ensures ReadString(buf, pos) == Got(s, pos + |EncodeString(s)|)
  {
    hide Limit, Le, ReadNumber;
    AtBoth(buf, pos, Le(|s|, 8), s);
    Limits();
    ReadNumberIff(buf, pos, 8, |s|, pos + 8);
    ReadBytesIff(buf, pos + 8, s, pos + 8 + |s|);
  }

  lemma ReadStringFinds(buf: seq<Byte>, pos: nat, s: seq<Byte>, p: nat)
    requires |buf| <= MAX_BYTES && ReadString(buf, pos) == Got(s, p)
    ensures At(buf, pos, EncodeString(s)) && p == pos + |EncodeString(s)|
  {
    hide Limit, Le, ReadNumber;
    var Got(size, q) := ReadNumber(buf, pos, 8);
    ReadNumberIff(buf, pos, 8, size, q);
    ReadBytesIff(buf, q, s, p);
    AtBoth(buf, pos, Le(|s|, 8), s);
  }

  lemma ReadHeaderAccepts(buf: seq<Byte>, pos: nat, e: Event)
    requires |buf| <= MAX_BYTES && At(buf, pos, EncodeHeader(e))
    ensures ReadHeader(buf, pos) == Got(e.(channels := []), pos + |EncodeHeader(e)|)
  {
    hide Limit, Le, ReadNumber, ReadString, EncodeString;
    AtBoth(buf, pos, Le(e.number, 4) + Le(e.timestamp, 8), EncodeString(e.device));
    AtBoth(buf, pos, Le(e.number, 4), Le(e.timestamp, 8));
    Limits();
    ReadNumberIff(buf, pos, 4, e.number, pos + 4);
    ReadNumberIff(buf, pos + 4, 8, e.timestamp, pos + 12);
    ReadStringAccepts(buf, pos + 12, e.device);
  }

  lemma ReadHeaderFinds(buf: seq<Byte>, pos: nat, e: Event, p: nat)
    requires |buf| <= MAX_BYTES && ReadHeader(buf, pos) == Got(e, p)
    ensures At(buf, pos, EncodeHeader(e)) && p == pos + |EncodeHeader(e)| && e.channels == []
  {
    hide Limit, Le, ReadNumber, ReadString, EncodeString;
    var Got(number, q) := ReadNumber(buf, pos, 4);
    var Got(timestamp, r) := ReadNumber(buf, q, 8);
    ReadNumberIff(buf, pos, 4, number, q);
    ReadNumberIff(buf, q, 8, timestamp, r);
    ReadStringFinds(buf, r, e.device, p);
    AtBoth(buf, pos, Le(e.number, 4), Le(e.timestamp, 8));
    AtBoth(buf, pos, Le(e.number, 4) + Le(e.timestamp, 8), EncodeString(e.device));
  }

  lemma DecodeAccepts(buf: seq<Byte>, pos: nat, e: Event)
    requires |buf| <= MAX_BYTES && At(buf, pos, Encode(e))
    ensures Decode(buf, pos) == Got(e, pos + |Encode(e)|)
  {
    hide Limit, Le, ReadNumber, ReadHeader, EncodeHeader, ReadChannels, EncodeChannels;
    var n, p := |e.channels|, pos + |EncodeHeader(e)|;
    AtBoth(buf, pos, EncodeHeader(e), Le(n, 8) + EncodeChannels(e.channels));
    AtBoth(buf, p, Le(n, 8), EncodeChannels(e.channels));
    ReadHeaderAccepts(buf, pos, e);
    ChannelsFit(e.channels);
    Limits();
    ReadNumberIff(buf, p, 8, n, p + 8);
    ReadChannelsAccepts(buf, p + 8, e.channels);
  }

  lemma {:induction false} ChannelsFit(cs: seq<Channel>)
    ensures |cs| <= |EncodeChannels(cs)|
  {
    if cs != [] {
      ChannelsFit(cs[1..]);
    }
  }

  lemma DecodeFinds(buf: seq<Byte>, pos: nat, e: Event, p: nat)
    requires |buf| <= MAX_BYTES && Decode(buf, pos) == Got(e, p)
    ensures At(buf, pos, Encode(e)) && p == pos + |Encode(e)|
  {
    hide Limit, Le, ReadNumber, ReadHeader, EncodeHeader, ReadChannels, EncodeChannels;
    var Got(head, q) := ReadHeader(buf, pos);
    var Got(n, r) := ReadNumber(buf, q, 8);
    ReadHeaderFinds(buf, pos, head, q);
    HeaderIgnoresChannels(head, e);
    ReadNumberIff(buf, q, 8, n, r);
    ReadChannelsFinds(buf, r, n, e.channels, p);
    AtBoth(buf, q, Le(n, 8), EncodeChannels(e.channels));
    AtBoth(buf, pos, EncodeHeader(e), Le(n, 8) + EncodeChannels(e.channels));
  }

  lemma HeaderIgnoresChannels(d: Event, e: Event)
    requires d == e.(channels := d.channels)
    ensures EncodeHeader(d) == EncodeHeader(e)
  {
  }

  // --- the codec laws ---

  /** Decoding an encoding, wherever it stands, gives the event back and the position after it. */
  lemma RoundTrip(prefix: seq<Byte>, e: Event, suffix: seq<Byte>)
    requires |prefix + Encode(e) + suffix| <= MAX_BYTES
    ensures Decode(prefix + Encode(e) + suffix, |prefix|) == Got(e, |prefix| + |Encode(e)|)
  {
    hide Encode, Decode;
    var buf := prefix + Encode(e) + suffix;
    assert buf[|prefix|..|prefix| + |Encode(e)|] == Encode(e);
    DecodeAccepts(buf, |prefix|, e);
  }

  /** What decodes is an encoding: encoding the result again gives the bytes read, and no position is skipped. */
  lemma Canonical(buf: seq<Byte>, pos: nat, e: Event, p: nat)
    requires |buf| <= MAX_BYTES
    ensures Decode(buf, pos) == Got(e, p) <==> pos <= p <= |buf| && buf[pos..p] == Encode(e)
    // Position 0 is free to mean failure.
    ensures Decode(buf, pos) == Got(e, p) ==> p >= pos + 28
  {
    hide Decode;
    if Decode(buf, pos) == Got(e, p) {
      DecodeFinds(buf, pos, e, p);
    }
    if pos <= p <= |buf| && buf[pos..p] == Encode(e) {
      DecodeAccepts(buf, pos, e);
    }
  }

  /** Every strict prefix of an encoding is rejected, whatever stands before it. */
  lemma TruncationRejected(prefix: seq<Byte>, e: Event, cut: nat)
    requires cut < |Encode(e)| && |prefix| + |Encode(e)| <= MAX_BYTES
    ensures Decode(prefix + Encode(e)[..cut], |prefix|) == Failed
  {
    hide Encode, Decode;
    var short, rest := prefix + Encode(e)[..cut], Encode(e)[cut..];
    match Decode(short, |prefix|)
    case Failed =>
    case Got(d, p) =>
      DecodeFinds(short, |prefix|, d, p);
      var whole := short + rest;
      assert whole == prefix + Encode(e) + [];
      assert whole[|prefix|..p] == short[|prefix|..p];
      DecodeAccepts(whole, |prefix|, d);
      RoundTrip(prefix, e, []);
  }

  /** Different events have different encodings, even when more bytes follow. */
  lemma EncodingInjective(d: Event, s: seq<Byte>, e: Event, t: seq<Byte>)
    requires Encode(d) + s == Encode(e) + t && |Encode(d) + s| <= MAX_BYTES
    ensures d == e && s == t
  {
    hide Encode, Decode;
    RoundTrip([], d, s);
    RoundTrip([], e, t);
    assert [] + Encode(d) + s == Encode(d) + s && [] + Encode(e) + t == Encode(e) + t;
    assert s == (Encode(d) + s)[|Encode(d)|..] && t == (Encode(e) + t)[|Encode(e)|..];
  }

  // --- the layout: where each byte of an event stands ---

  /** The bytes of `v`, the lowest first. */
  ghost predicate NumberAt(buf: seq<Byte>, pos: nat, v: nat, width: nat) {
    pos + width <= |buf| && forall j :: 0 <= j < width ==> buf[pos + j] == v / Limit(j) % 256
  }

  ghost predicate BytesAt(buf: seq<Byte>, pos: nat, bs: seq<Byte>) {
    pos + |bs| <= |buf| && forall k :: 0 <= k < |bs| ==> buf[pos + k] == bs[k]
  }

  ghost predicate SamplesAt(buf: seq<Byte>, pos: nat, xs: seq<U16>) {
    pos + 2 * |xs| <= |buf| && forall k :: 0 <= k < |xs| ==> NumberAt(buf, pos + 2 * k, xs[k], 2)
  }

  /** The number of a channel, then both vectors, each after its length. */
  ghost predicate ChannelAt(buf: seq<Byte>, pos: nat, c: Channel) {
    && NumberAt(buf, pos, c.channel, 2)
    && NumberAt(buf, pos + 2, |c.xs|, 8) && SamplesAt(buf, pos + 10, c.xs)
    && NumberAt(buf, pos + 10 + 2 * |c.xs|, |c.ys|, 8) && SamplesAt(buf, pos + 18 + 2 * |c.xs|, c.ys)
  }

  /** How many bytes the first `n` channels take. */
  function ChannelOffset(cs: seq<Channel>, n: nat): nat
    requires n <= |cs|
  {
    if n == 0 then 0 else 18 + 2 * |cs[0].xs| + 2 * |cs[0].ys| + ChannelOffset(cs[1..], n - 1)
  }

  ghost predicate ChannelsAt(buf: seq<Byte>, pos: nat, cs: seq<Channel>) {
    forall i :: 0 <= i < |cs| ==> ChannelAt(buf, pos + ChannelOffset(cs, i), cs[i])
  }

  /** The event stands in `buf` from `pos` on. */
  ghost predicate LaidOut(buf: seq<Byte>, pos: nat, e: Event) {
    var n := |e.device|;
    && NumberAt(buf, pos, e.number, 4) && NumberAt(buf, pos + 4, e.timestamp, 8)
    && NumberAt(buf, pos + 12, n, 8) && BytesAt(buf, pos + 20, e.device)
    && NumberAt(buf, pos + 20 + n, |e.channels|, 8) && ChannelsAt(buf, pos + 28 + n, e.channels)
  }

  function Size(e: Event): nat {
    28 + |e.device| + ChannelOffset(e.channels, |e.channels|)
  }

  lemma Product(d: int, m: nat)
    ensures d >= 1 ==> d * m >= m
    ensures d <= -1 ==> d * m <= -(m as int)
  {
    if d >= 1 {
      assert d * m == (d - 1) * m + m;
    } else if d <= -1 {
      assert -d * m == (-d - 1) * m + m;
    }
  }

  lemma Quotient(v: nat, q: nat, r: nat, m: nat)
    requires v == q * m + r && r < m
    ensures v / m == q
  {
    var d := v / m - q;
    assert d * m == v / m * m - q * m == r - v % m;
    Product(d, m);
  }

  lemma DivideTwice(v: nat, n: nat)
    ensures v / Limit(n + 1) == v / 256 / Limit(n)
  {
    var l := Limit(n);
    var q := v / 256 / l;
    var r := v / 256 % l;
    assert v / 256 == q * l + r;
    assert v == 256 * (q * l + r) + v % 256 == q * (256 * l) + (256 * r + v % 256);
    Quotient(v, q, 256 * r + v % 256, 256 * l);
  }

  lemma {:induction false} LeByte(v: nat, n: nat, j: nat)
    requires j < n
    ensures Le(v, n)[j] == v / Limit(j) % 256
  {
    if j > 0 {
      LeByte(v / 256, n - 1, j - 1);
      DivideTwice(v, j - 1);
    }
  }

  lemma NumberAtIff(buf: seq<Byte>, pos: nat, v: nat, width: nat)
    ensures NumberAt(buf, pos, v, width) <==> At(buf, pos, Le(v, width))
  {
    hide Le, Limit;
    forall j | 0 <= j < width ensures Le(v, width)[j] == v / Limit(j) % 256 {
      LeByte(v, width, j);
    }
    if pos + width <= |buf| {
      var part := buf[pos..pos + width];
      assert forall j :: 0 <= j < width ==> part[j] == buf[pos + j];
      if NumberAt(buf, pos, v, width) {
        assert part == Le(v, width);
      }
    }
  }

  lemma {:induction false} SamplesAtIff(buf: seq<Byte>, pos: nat, xs: seq<U16>)
    ensures SamplesAt(buf, pos, xs) <==> At(buf, pos, EncodeSamples(xs))
    decreases |xs|
  {
    hide NumberAt, Le;
    if xs != [] {
      AtBoth(buf, pos, Le(xs[0], 2), EncodeSamples(xs[1..]));
      NumberAtIff(buf, pos, xs[0], 2);
      SamplesAtIff(buf, pos + 2, xs[1..]);
      SamplesFrom(buf, pos, xs);
    } else {
      assert pos <= |buf| ==> buf[pos..pos] == [];
    }
  }

  lemma SamplesFrom(buf: seq<Byte>, pos: nat, xs: seq<U16>)
    requires xs != []
    ensures SamplesAt(buf, pos, xs) <==> NumberAt(buf, pos, xs[0], 2) && SamplesAt(buf, pos + 2, xs[1..])
  {
    hide NumberAt;
    if SamplesAt(buf, pos, xs) {
      assert NumberAt(buf, pos + 2 * 0, xs[0], 2);
      forall k | 0 <= k < |xs[1..]| ensures NumberAt(buf, pos + 2 + 2 * k, xs[1..][k], 2) {
        assert NumberAt(buf, pos + 2 * (k + 1), xs[k + 1], 2);
      }
    }
    if NumberAt(buf, pos, xs[0], 2) && SamplesAt(buf, pos + 2, xs[1..]) {
      forall k | 0 <= k < |xs| ensures NumberAt(buf, pos + 2 * k, xs[k], 2) {
        if k > 0 {
          assert NumberAt(buf, pos + 2 + 2 * (k - 1), xs[1..][k - 1], 2);
        }
      }
    }
  }

  lemma BytesAtIff(buf: seq<Byte>, pos: nat, bs: seq<Byte>)
    ensures BytesAt(buf, pos, bs) <==> At(buf, pos, bs)
  {
    if pos + |bs| <= |buf| {
      var part := buf[pos..pos + |bs|];
      assert forall k :: 0 <= k < |bs| ==> part[k] == buf[pos + k];
      if BytesAt(buf, pos, bs) {
        assert part == bs;
      }
    }
  }

  lemma ChannelAtIff(buf: seq<Byte>, pos: nat, c: Channel)
    ensures ChannelAt(buf, pos, c) <==> At(buf, pos, EncodeChannel(c))
    ensures |EncodeChannel(c)| == 18 + 2 * |c.xs| + 2 * |c.ys|
  {
    hide At, NumberAt, SamplesAt, EncodeSamples, Le;
    var q := pos + 10 + 2 * |c.xs|;
    AtBoth(buf, pos, Le(c.channel, 2) + EncodeVector(c.xs), EncodeVector(c.ys));
    AtBoth(buf, pos, Le(c.channel, 2), EncodeVector(c.xs));
    AtBoth(buf, pos + 2, Le(|c.xs|, 8), EncodeSamples(c.xs));
    AtBoth(buf, q, Le(|c.ys|, 8), EncodeSamples(c.ys));
    NumberAtIff(buf, pos, c.channel, 2);
    NumberAtIff(buf, pos + 2, |c.xs|, 8);
    SamplesAtIff(buf, pos + 10, c.xs);
    NumberAtIff(buf, q, |c.ys|, 8);
    SamplesAtIff(buf, q + 8, c.ys);
  }

  lemma {:induction false} ChannelsAtIff(buf: seq<Byte>, pos: nat, cs: seq<Channel>)
    requires pos <= |buf|
    ensures ChannelsAt(buf, pos, cs) <==> At(buf, pos, EncodeChannels(cs))
    ensures |EncodeChannels(cs)| == ChannelOffset(cs, |cs|)
    decreases |cs|
  {
    hide At, ChannelAt, EncodeChannel, ChannelsAt, ChannelOffset;
    if cs == [] {
      NoChannelsAt(buf, pos);
      OffsetOfAll(cs);
    } else {
      var first, rest := cs[0], cs[1..];
      var q := pos + |EncodeChannel(first)|;
      ChannelAtIff(buf, pos, first);
      AtBoth(buf, pos, EncodeChannel(first), EncodeChannels(rest));
      ChannelsFrom(buf, pos, cs);
      if q <= |buf| {
        ChannelsAtIff(buf, q, rest);
      } else {
        PastTheEnd(buf, pos, EncodeChannel(first));
        ChannelsAtIff([], 0, rest);
      }
      OffsetOfAll(cs);
    }
  }

  lemma OffsetOfAll(cs: seq<Channel>)
    ensures ChannelOffset(cs, |cs|)
         == if cs == [] then 0 else 18 + 2 * |cs[0].xs| + 2 * |cs[0].ys| + ChannelOffset(cs[1..], |cs| - 1)
  {
  }

  lemma PastTheEnd(buf: seq<Byte>, pos: nat, bs: seq<Byte>)
    requires pos + |bs| > |buf|
    ensures !At(buf, pos, bs)
  {
  }

  lemma NoChannelsAt(buf: seq<Byte>, pos: nat)
    requires pos <= |buf|
    ensures ChannelsAt(buf, pos, []) && At(buf, pos, [])
  {
    assert buf[pos..pos] == [];
  }

  lemma ChannelsFrom(buf: seq<Byte>, pos: nat, cs: seq<Channel>)
    requires cs != []
    ensures var q := pos + 18 + 2 * |cs[0].xs| + 2 * |cs[0].ys|;
            ChannelsAt(buf, pos, cs) <==> ChannelAt(buf, pos, cs[0]) && ChannelsAt(buf, q, cs[1..])
  {
    hide ChannelAt;
    var q := pos + 18 + 2 * |cs[0].xs| + 2 * |cs[0].ys|;
    if ChannelsAt(buf, pos, cs) {
      assert ChannelAt(buf, pos + ChannelOffset(cs, 0), cs[0]);
      forall i | 0 <= i < |cs[1..]| ensures ChannelAt(buf, q + ChannelOffset(cs[1..], i), cs[1..][i]) {
        assert ChannelAt(buf, pos + ChannelOffset(cs, i + 1), cs[i + 1]);
      }
    }
    if ChannelAt(buf, pos, cs[0]) && ChannelsAt(buf, q, cs[1..]) {
      forall i | 0 <= i < |cs| ensures ChannelAt(buf, pos + ChannelOffset(cs, i), cs[i]) {
        if i > 0 {
          assert ChannelAt(buf, q + ChannelOffset(cs[1..], i - 1), cs[1..][i - 1]);
        }
      }
    }
  }

  lemma HeaderAtIff(buf: seq<Byte>, pos: nat, e: Event)
    ensures |EncodeHeader(e)| == 20 + |e.device|
    ensures At(buf, pos, EncodeHeader(e)) <==>
            && NumberAt(buf, pos, e.number, 4) && NumberAt(buf, pos + 4, e.timestamp, 8)
            && NumberAt(buf, pos + 12, |e.device|, 8) && BytesAt(buf, pos + 20, e.device)
  {
    hide At, NumberAt, BytesAt, Le;
    AtBoth(buf, pos, Le(e.number, 4) + Le(e.timestamp, 8), EncodeString(e.device));
    AtBoth(buf, pos, Le(e.number, 4), Le(e.timestamp, 8));
    AtBoth(buf, pos + 12, Le(|e.device|, 8), e.device);
    NumberAtIff(buf, pos, e.number, 4);
    NumberAtIff(buf, pos + 4, e.timestamp, 8);
    NumberAtIff(buf, pos + 12, |e.device|, 8);
    BytesAtIff(buf, pos + 20, e.device);
  }

  /** An encoding is exactly the bytes of the layout, whose positions depend on lengths only. */
  lemma LayoutIff(buf: seq<Byte>, pos: nat, e: Event)
    ensures At(buf, pos, Encode(e)) <==> LaidOut(buf, pos, e)
    ensures |Encode(e)| == Size(e)
  {
    hide NumberAt, BytesAt, ChannelsAt, Le, EncodeHeader, EncodeChannels;
    var n, q := |e.channels|, pos + 20 + |e.device|;
    HeaderAtIff(buf, pos, e);
    AtBoth(buf, pos, EncodeHeader(e), Le(n, 8) + EncodeChannels(e.channels));
    AtBoth(buf, q, Le(n, 8), EncodeChannels(e.channels));
    NumberAtIff(buf, q, n, 8);
    if q + 8 <= |buf| {
      ChannelsAtIff(buf, q + 8, e.channels);
    } else {
      ChannelsAtIff([], 0, e.channels);
    }
  }

  /** Decoding finds an event exactly where one is laid out. */
  lemma DecodeIff(buf: seq<Byte>, pos: nat, e: Event, p: nat)
    requires |buf| <= MAX_BYTES
    ensures Decode(buf, pos) == Got(e, p) <==> LaidOut(buf, pos, e) && p == pos + Size(e)
  {
    hide Decode, Encode, LaidOut, Size;
    LayoutIff(buf, pos, e);
    if Decode(buf, pos) == Got(e, p) {
      DecodeFinds(buf, pos, e, p);
    }
    if LaidOut(buf, pos, e) {
      DecodeAccepts(buf, pos, e);
    }
  }
}
