/** The reusable byte buffer (`Binary`) and the event object that serialises itself into one (`caen_output_data`,
    `SerializableFormat`). */
module CaenEvent {
  import opened Sequences
  import opened Codec

  // --- the effect of writing into a growable buffer ---

  /** `data` cut or filled up with zeros to `size` bytes. */
  function Resized(data: seq<Byte>, size: nat): (r: seq<Byte>)
    ensures |r| == size
  {
    if size <= |data| then data[..size] else data + seq(size - |data|, _ => 0)
  }

  function Rest(data: seq<Byte>, from: nat): seq<Byte> {
    if from <= |data| then data[from..] else []
  }

  /** `data` with `source` stored at `dest`, grown as far as needed. */
  function Overwrite(data: seq<Byte>, dest: nat, source: seq<Byte>): seq<Byte> {
    Resized(data, dest) + source + Rest(data, dest + |source|)
  }

  /** Byte by byte: `source` from `dest` on, the old bytes elsewhere, and zeros where there were none. */
  ghost predicate Stored(before: seq<Byte>, after: seq<Byte>, dest: nat, source: seq<Byte>) {
    var end := dest + |source|;
    && |after| == (if |before| < end then end else |before|)
    && forall k :: 0 <= k < |after| ==>
         after[k] == if dest <= k < end then source[k - dest] else if k < |before| then before[k] else 0
  }

  lemma OverwriteStores(data: seq<Byte>, dest: nat, source: seq<Byte>)
    ensures Stored(data, Overwrite(data, dest, source), dest, source)
  {
  }

  lemma OverwriteAt(data: seq<Byte>, dest: nat, source: seq<Byte>)
    ensures At(Overwrite(data, dest, source), dest, source)
  {
    var front := Resized(data, dest);
    assert Overwrite(data, dest, source)[dest..dest + |source|] == source;
  }

  /** Two writes in a row are one write of both. */
  lemma OverwriteTwice(data: seq<Byte>, dest: nat, a: seq<Byte>, b: seq<Byte>)
    ensures Overwrite(Overwrite(data, dest, a), dest + |a|, b) == Overwrite(data, dest, a + b)
  {
    var front := Resized(data, dest);
    var once := Overwrite(data, dest, a);
    assert Resized(once, dest + |a|) == front + a;
    assert Rest(once, dest + |a| + |b|) == Rest(data, dest + |a| + |b|) by {
      assert once == front + a + Rest(data, dest + |a|);
    }
    Assoc(front, a, b);
  }

  /** What a buffer held before leaves no trace once it is cut to the end of a write at its start. */
  lemma OverwriteThenTrim(data: seq<Byte>, source: seq<Byte>)
    ensures Resized(Overwrite(data, 0, source), |source|) == source
  {
  }

  datatype ErrorCode = Alloc | InvalidArg | Overflow

  class Binary {
    var data: seq<Byte>
    var error: Option<ErrorCode>

    ghost predicate Valid()
      reads this
    {
      |data| <= MAX_BYTES
    }

    /** A copy of the bytes at a pointer; a null pointer is an error. */
    constructor (source: Option<seq<Byte>>)
      requires source.Some? ==> |source.value| <= MAX_BYTES
      ensures Valid()
      ensures source.Some? ==> data == source.value && error == None
      ensures source.None? ==> data == [] && error == Some(InvalidArg)
    {
      data := if source.Some? then source.value else [];
      error := if source.Some? then None else Some(InvalidArg);
    }

    method Append(rhs: Binary)
      requires Valid() && rhs.Valid() && |data| + |rhs.data| <= MAX_BYTES
      modifies this`data
      ensures Valid() && data == old(data) + old(rhs.data)
    {
      data := data + rhs.data;
    }

    method Resize(size: nat)
      requires size <= MAX_BYTES
      modifies this`data
      ensures Valid() && data == Resized(old(data), size)
    {
      data := Resized(data, size);
    }

    method Reset()
      modifies this`error
      ensures error == None
    {
      error := None;
    }

    method Clear()
      modifies this
      ensures Valid() && data == [] && error == None
    {
      Resize(0);
      Reset();
    }

    /** Stores `source` at `dest`. `None` is an exception: the end overflows size_t or is more than a vector holds. */
    method Memwrite(dest: nat, source: seq<Byte>) returns (r: Option<nat>)
      requires Valid()
      modifies this`data
      ensures Valid() && (r.Some? <==> dest + |source| <= MAX_BYTES)
      ensures r.Some? ==> r.value == dest + |source| && data == Overwrite(old(data), dest, source)
      ensures r.Some? ==> Stored(old(data), data, dest, source) && |data| <= 0x7FFF_FFFF_FFFF_FFFF
      ensures r.None? ==> dest + |source| > 0x7FFF_FFFF_FFFF_FFFF
      ensures r.None? ==> data == old(data)
    {
      if dest + |source| >= SIZE_MODULUS {
        return None;
      }
      var end := dest + |source|;
      if end > |data| {
        if end > MAX_BYTES {
          return None;
        }
        Resize(end);
      }
      ghost var grown := data;
      data := data[..dest] + source + data[end..];
      assert grown[..dest] == Resized(old(data), dest) && grown[end..] == Rest(old(data), end);
      OverwriteStores(old(data), dest, source);
      return Some(end);
    }

    /** Reads `num` bytes at `from`; fails exactly when they are not all there. */
    method Memread(from: nat, num: nat) returns (r: Read<seq<Byte>>)
      requires Valid()
      ensures r == ReadBytes(data, from, num)
      ensures r.Got? <==> from + num <= |data|
    {
      if from + num >= SIZE_MODULUS || from + num > |data| {
        return Failed;
      }
      return Got(data[from..from + num], from + num);
    }
  }

  class CaenOutputData {
    var eventNumber: U32
    var timestamp: U64
    var device: seq<Byte>
    var chData: seq<Channel>
    const byteBuffer: Binary

    constructor ()
      ensures fresh(byteBuffer) && byteBuffer.Valid()
      ensures Current() == Event(0, 0, [], []) && byteBuffer.data == []
    {
      eventNumber, timestamp, device, chData := 0, 0, [], [];
      byteBuffer := new Binary(Some([]));
    }

    /** The event that the object holds. */
    function Current(): Event
      reads this
    {
      Event(eventNumber, timestamp, device, chData)
    }

    // The event number keeps its last value.
    method Clear()
      modifies this
      ensures Current() == Event(old(eventNumber), 0, [], [])
    {
      chData, device, timestamp := [], [], 0;
    }

    // --- writing ---

    /** A size and the bytes of that many samples. */
    static method WriteVector(xs: seq<U16>, buffer: Binary, dest: nat) returns (r: Option<nat>)
      requires buffer.Valid()
      modifies buffer`data
      ensures Written(r, old(buffer.data), buffer.data, dest, EncodeVector(xs)) && buffer.Valid()
    {
      hide Overwrite, Le, EncodeSamples;
      ghost var before := buffer.data;
      var pos :- buffer.Memwrite(dest, Le(|xs|, 8));
      pos :- buffer.Memwrite(pos, EncodeSamples(xs));
      OverwriteTwice(before, dest, Le(|xs|, 8), EncodeSamples(xs));
      return Some(pos);
    }

    static method WriteChannel(c: Channel, buffer: Binary, dest: nat) returns (r: Option<nat>)
      requires buffer.Valid()
      modifies buffer`data
      ensures Written(r, old(buffer.data), buffer.data, dest, EncodeChannel(c)) && buffer.Valid()
    {
      hide Overwrite, Le, EncodeVector;
      ghost var before := buffer.data;
      var pos :- buffer.Memwrite(dest, Le(c.channel, 2));
      pos :- WriteVector(c.xs, buffer, pos);
      OverwriteTwice(before, dest, Le(c.channel, 2), EncodeVector(c.xs));
      pos :- WriteVector(c.ys, buffer, pos);
      OverwriteTwice(before, dest, Le(c.channel, 2) + EncodeVector(c.xs), EncodeVector(c.ys));
      return Some(pos);
    }

    method WriteHeader(buffer: Binary, dest: nat) returns (r: Option<nat>)
      requires buffer.Valid()
      modifies buffer`data
      ensures Written(r, old(buffer.data), buffer.data, dest, EncodeHeader(Current())) && buffer.Valid()
    {
      hide Overwrite, Le;
      ghost var before := buffer.data;
      var number, time, size := Le(eventNumber, 4), Le(timestamp, 8), Le(|device|, 8);
      var pos :- buffer.Memwrite(dest, number);
      pos :- buffer.Memwrite(pos, time);
      OverwriteTwice(before, dest, number, time);
      pos :- buffer.Memwrite(pos, size);
      OverwriteTwice(before, dest, number + time, size);
      pos :- buffer.Memwrite(pos, device);
      OverwriteTwice(before, dest, number + time + size, device);
      Assoc(number + time, size, device);
      return Some(pos);
    }

    method WriteChannels(buffer: Binary, dest: nat) returns (r: Option<nat>)
      requires buffer.Valid()
      modifies buffer`data
      ensures Written(r, old(buffer.data), buffer.data, dest, Le(|chData|, 8) + EncodeChannels(chData))
      ensures buffer.Valid()
    {
      hide Overwrite, Le, EncodeChannel;
      ghost var before := buffer.data;
      ghost var w := Le(|chData|, 8);
      var pos :- buffer.Memwrite(dest, Le(|chData|, 8));
      for i := 0 to |chData|
        invariant buffer.Valid() && pos == dest + |w| <= MAX_BYTES && buffer.data == Overwrite(before, dest, w)
        invariant w + EncodeChannels(chData[i..]) == Le(|chData|, 8) + EncodeChannels(chData)
      {
        ghost var bs, rest := EncodeChannel(chData[i]), EncodeChannels(chData[i + 1..]);
        assert chData[i..][0] == chData[i] && chData[i..][1..] == chData[i + 1..];
        Assoc(w, bs, rest);
        pos :- WriteChannel(chData[i], buffer, pos);
        OverwriteTwice(before, dest, w, bs);
        w := w + bs;
      }
      assert chData[|chData|..] == [] && w + [] == w;
      return Some(pos);
    }

    /** Serialises the event into `buffer` from `dest` on; on an exception the buffer is emptied and the result is 0. */
    method Serialize(buffer: Binary, dest: nat) returns (pos: nat)
      requires buffer.Valid()
      modifies buffer
      ensures buffer.Valid()
      ensures pos != 0 <==> dest + |Encode(Current())| <= MAX_BYTES
      ensures pos != 0 ==> pos == dest + |Encode(Current())|
                           && buffer.data == Overwrite(old(buffer.data), dest, Encode(Current()))
      ensures pos != 0 ==> LaidOut(buffer.data, dest, Current()) && pos == dest + Size(Current())
      ensures pos == 0 ==> buffer.data == [] && buffer.error == None
      ensures pos != 0 ==> buffer.error == old(buffer.error)
    {
      hide LaidOut, Encode, Overwrite;
      var r := WriteAll(buffer, dest);
      if r.None? {
        buffer.Clear();
        return 0;
      }
      OverwriteAt(old(buffer.data), dest, Encode(Current()));
      LayoutIff(buffer.data, dest, Current());
      return r.value;
    }

    method WriteAll(buffer: Binary, dest: nat) returns (r: Option<nat>)
      requires buffer.Valid()
      modifies buffer`data
      ensures Written(r, old(buffer.data), buffer.data, dest, Encode(Current())) && buffer.Valid()
    {
      hide Overwrite, Le, EncodeHeader, EncodeChannels;
      ghost var before := buffer.data;
      var pos :- WriteHeader(buffer, dest);
      pos :- WriteChannels(buffer, pos);
      OverwriteTwice(before, dest, EncodeHeader(Current()), Le(|chData|, 8) + EncodeChannels(chData));
      return Some(pos);
    }

    // --- reading ---

    static method ReadNumberAt(buffer: Binary, dest: nat, width: nat) returns (r: Read<nat>)
      requires buffer.Valid()
      ensures r == ReadNumber(buffer.data, dest, width)
      ensures r.Got? ==> r.value < Limit(width) && r.pos == dest + width
    {
      var bytes := buffer.Memread(dest, width);
      if bytes.Failed? {
        return Failed;
      }
      return Got(Value(bytes.value), bytes.pos);
    }

    static method ReadVectorAt(buffer: Binary, dest: nat) returns (r: Read<seq<U16>>)
      requires buffer.Valid()
      ensures r == ReadVector(buffer.data, dest)
    {
      hide Value, Samples, Limit;
      var size := ReadNumberAt(buffer, dest, 8);
      if size.Failed? || 2 * size.value > MAX_BYTES {
        return Failed;
      }
      var bytes := buffer.Memread(size.pos, 2 * size.value % SIZE_MODULUS);
      if bytes.Failed? {
        return Failed;
      }
      return Got(Samples(bytes.value), bytes.pos);
    }

    static method ReadChannelAt(buffer: Binary, dest: nat) returns (r: Read<Channel>)
      requires buffer.Valid()
      ensures r == ReadChannel(buffer.data, dest)
    {
      hide ReadNumber, ReadVector, Limit;
      Limits();
      var channel := ReadNumberAt(buffer, dest, 2);
      if channel.Failed? {
        return Failed;
      }
      var xs := ReadVectorAt(buffer, channel.pos);
      if xs.Failed? {
        return Failed;
      }
      var ys := ReadVectorAt(buffer, xs.pos);
      if ys.Failed? {
        return Failed;
      }
      return Got(Channel(channel.value, xs.value, ys.value), ys.pos);
    }

    /** Fills the object from `buffer` at `dest`; on an exception the object is cleared and the result is 0. */
    method Deserialize(buffer: Binary, dest: nat) returns (pos: nat)
      requires buffer.Valid()
      modifies this
      ensures pos != 0 <==> Decode(buffer.data, dest).Got?
      ensures pos != 0 ==> Decode(buffer.data, dest) == Got(Current(), pos)
      ensures pos != 0 ==> LaidOut(buffer.data, dest, Current()) && pos == dest + Size(Current())
      ensures pos == 0 ==> timestamp == 0 && device == [] && chData == []
      // The event number is not cleared: it is the one read, if the buffer reached that far.
      ensures pos == 0 ==> var n := ReadNumber(buffer.data, dest, 4);
                           eventNumber == if n.Got? then n.value else old(eventNumber)
    {
      hide Decode, ReadNumber, LaidOut, Size;
      pos := ReadAll(buffer, dest);
      if pos == 0 {
        Clear();
      } else {
        DecodeIff(buffer.data, dest, Current(), pos);
      }
    }

    /** The reads of `Deserialize`; 0 stands for an exception, which leaves the fields as they are at that moment. */
    method ReadAll(buffer: Binary, dest: nat) returns (pos: nat)
      requires buffer.Valid()
      modifies this
      ensures pos != 0 <==> Decode(buffer.data, dest).Got?
      ensures pos != 0 ==> Decode(buffer.data, dest) == Got(Current(), pos)
      ensures var n := ReadNumber(buffer.data, dest, 4); eventNumber == if n.Got? then n.value else old(eventNumber)
    {
      hide ReadNumber, ReadChannels, Limit;
      Limits();
      PositivePosition(buffer.data, dest);
      var number := ReadNumberAt(buffer, dest, 4);
      if number.Failed? {
        return 0;
      }
      eventNumber := number.value;
      var time := ReadNumberAt(buffer, number.pos, 8);
      if time.Failed? {
        return 0;
      }
      timestamp := time.value;
      var size := ReadNumberAt(buffer, time.pos, 8);
      if size.Failed? {
        return 0;
      }
      device := Resized(device, size.value);
      var text := buffer.Memread(size.pos, size.value);
      if text.Failed? {
        return 0;
      }
      device := text.value;
      var count := ReadNumberAt(buffer, text.pos, 8);
      if count.Failed? {
        return 0;
      }
      pos := ReadChannelsAt(buffer, count.pos, count.value);
    }

    /** Resizes the channel list to `count` entries and reads each of them. */
    method ReadChannelsAt(buffer: Binary, dest: nat, count: nat) returns (pos: nat)
      requires buffer.Valid() && dest > 0
      modifies this`chData
      ensures pos != 0 <==> ReadChannels(buffer.data, dest, count).Got?
      ensures pos != 0 ==> ReadChannels(buffer.data, dest, count) == Got(chData, pos)
    {
      hide ReadChannel;
      chData := if count <= |chData| then chData[..count] else chData + seq(count - |chData|, _ => Channel(0, [], []));
      pos := dest;
      assert chData[..0] == [];
      PrependNone(ReadChannels(buffer.data, dest, count));
      for i := 0 to count
        invariant |chData| == count && pos > 0
        invariant ReadChannels(buffer.data, dest, count) ==
                  Prepend(chData[..i], ReadChannels(buffer.data, pos, count - i))
      {
        var c := ReadChannelAt(buffer, pos);
        if c.Failed? {
          return 0;
        }
        ReadChannelFinds(buffer.data, pos, c.value, c.pos);
        PrependOne(chData[..i], c.value, ReadChannels(buffer.data, c.pos, count - i - 1));
        chData := chData[i := c.value];
        assert chData[..i + 1] == chData[..i] + [c.value];
        pos := c.pos;
      }
      assert chData[..count] == chData && chData + [] == chData;
    }

    // --- the public interface of a serialisable type ---

    /** Brings the byte buffer up to date with the object, whatever longer or shorter bytes it held before. */
    method SerializeToBuffer() returns (ok: bool)
      requires byteBuffer.Valid()
      modifies byteBuffer
      ensures byteBuffer.Valid() && byteBuffer.error == None
      ensures ok <==> |Encode(Current())| <= MAX_BYTES
      ensures byteBuffer.data == if ok then Encode(Current()) else []
      ensures ok ==> LaidOut(byteBuffer.data, 0, Current()) && |byteBuffer.data| == Size(Current())
    {
      hide Encode, LaidOut, Size;
      byteBuffer.Reset();
      ghost var before := byteBuffer.data;
      var pos := Serialize(byteBuffer, 0);
      if pos == 0 {
        byteBuffer.Clear();
      } else {
        OverwriteThenTrim(before, Encode(Current()));
        byteBuffer.Resize(pos);
        assert Encode(Current())[0..|Encode(Current())|] == Encode(Current());
        LayoutIff(byteBuffer.data, 0, Current());
      }
      return pos != 0;
    }

    /** Takes over received bytes. A null pointer is refused without touching the event. */
    method DeserializeFrom(source: Option<seq<Byte>>) returns (ok: bool)
      requires source.Some? ==> |source.value| <= MAX_BYTES
      modifies this, byteBuffer
      ensures byteBuffer.Valid()
      ensures source.None? ==> !ok && byteBuffer.data == [] && Current() == old(Current())
      ensures source.Some? ==> byteBuffer.data == source.value && (ok <==> Decode(source.value, 0).Got?)
      ensures ok ==> Decode(source.value, 0).value == Current()
    {
      hide Decode;
      var received := new Binary(source);
      byteBuffer.data, byteBuffer.error := received.data, received.error;
      if byteBuffer.error.Some? {
        byteBuffer.Clear();
        return false;
      }
      ok := DeserializeFromBuffer();
    }

    /** Brings the object up to date with the byte buffer. */
    method DeserializeFromBuffer() returns (ok: bool)
      requires byteBuffer.Valid()
      modifies this
      ensures ok <==> Decode(byteBuffer.data, 0).Got?
      ensures ok ==> Decode(byteBuffer.data, 0).value == Current() && LaidOut(byteBuffer.data, 0, Current())
      ensures !ok ==> timestamp == 0 && device == [] && chData == []
    {
      hide Decode, LaidOut, Size;
      var pos := Deserialize(byteBuffer, 0);
      if pos == 0 {
        Clear();
      }
      return pos != 0;
    }
  }

  /** Sending and receiving: what one object serialises, another one takes over, unless the bytes are too many. */
  method Transfer(source: CaenOutputData, target: CaenOutputData) returns (ok: bool)
    requires source.byteBuffer.Valid() && source.byteBuffer != target.byteBuffer && source != target
    modifies source.byteBuffer, target.byteBuffer, target
    ensures ok <==> |Encode(source.Current())| <= MAX_BYTES
    ensures ok ==> target.Current() == source.Current() && target.byteBuffer.data == source.byteBuffer.data
  {
    hide Encode, Decode;
    ok := source.SerializeToBuffer();
    if ok {
      RoundTrip([], source.Current(), []);
      assert [] + Encode(source.Current()) + [] == Encode(source.Current());
      ok := target.DeserializeFrom(Some(source.byteBuffer.data));
    }
  }

  function Prepend(cs: seq<Channel>, r: Read<seq<Channel>>): Read<seq<Channel>> {
    match r
    case Failed => Failed
    case Got(ds, p) => Got(cs + ds, p)
  }

  lemma PrependNone(r: Read<seq<Channel>>)
    ensures Prepend([], r) == r
  {
    if r.Got? {
      assert [] + r.value == r.value;
    }
  }

  lemma PrependOne(cs: seq<Channel>, c: Channel, r: Read<seq<Channel>>)
    ensures Prepend(cs + [c], r) == Prepend(cs, Prepend([c], r))
  {
    if r.Got? {
      Assoc(cs, [c], r.value);
    }
  }

  lemma PositivePosition(buf: seq<Byte>, pos: nat)
    requires |buf| <= MAX_BYTES
    ensures Decode(buf, pos).Got? ==> Decode(buf, pos).pos > 0
  {
    hide Decode;
    match Decode(buf, pos)
    case Failed =>
    case Got(e, p) => Canonical(buf, pos, e, p);
  }

  /** The outcome of a write: an exception exactly when the bytes do not fit, else `bs` is in place and `r` is the
      position after it. */
  ghost predicate Written(r: Option<nat>, before: seq<Byte>, after: seq<Byte>, dest: nat, bs: seq<Byte>) {
    && (r.Some? <==> dest + |bs| <= MAX_BYTES)
    && (r.Some? ==> r.value == dest + |bs| && after == Overwrite(before, dest, bs))
  }
}
