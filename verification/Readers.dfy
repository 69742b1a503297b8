/** The readers of vynkor/framing.py over a byte stream with a cursor. */
module Readers {
  import opened Wrappers
  import opened Octets
  import opened Framing

  /** Buffered input that ends at end-of-file: an io.BytesIO, or an asyncio.StreamReader fed up to EOF. */
  class ByteStream {
    const data: Bytes
    var pos: nat

    ghost predicate Valid()
      reads this
    {
      pos <= |data|
    }

    ghost function Remaining(): Bytes
      requires Valid()
      reads this
    {
      data[pos..]
    }

    constructor (data: Bytes)
      ensures Valid() && Remaining() == data
    {
      this.data := data;
      pos := 0;
    }

    /** `stream.read(n)`: up to n bytes. */
    method Read(n: nat) returns (r: Bytes)
      requires Valid()
      modifies this
      ensures Valid()
      ensures r == old(Remaining())[..Min(n, |old(Remaining())|)]
      ensures Remaining() == old(Remaining())[|r|..]
    {
      var end := pos + Min(n, |data| - pos);
      r := data[pos..end];
      pos := end;
    }

    /** `reader.readexactly(n)`: n bytes, or an exception that has used up what there was. */
    method ReadExactly(n: nat) returns (r: Option<Bytes>)
      requires Valid()
      modifies this
      ensures Valid()
      ensures var ahead := old(Remaining());
              if n <= |ahead| then r == Some(ahead[..n]) && Remaining() == ahead[n..]
              else r == None && Remaining() == []
    {
      var got := Read(n);
      r := if |got| < n then None else Some(got);
    }
  }

  /** CRC, normalization and tag, once header and payload bytes are in. */
  method CheckBody(p: Primitives, stream: ByteStream, key: Key, h: Header, body: Bytes)
    returns (r: Result<Frame, WireError>)
    requires stream.Valid() && |body| <= MAX_PAYLOAD
    modifies stream
    ensures stream.Valid()
    ensures var parsed := ParseBody(p, key, h, body, old(stream.Remaining()));
            r == parsed.outcome && stream.Remaining() == old(stream.Remaining())[parsed.consumed..]
  {
    if p.crc32(body) != h.crc {
      return Err(CrcMismatch);
    }
    var normalized := Normalize(p, h.flags, h.target, body);
    if normalized.Err? {
      return Err(normalized.error);
    }
    var plain := normalized.value;
    if plain.flags.mac {
      var tag := stream.Read(TAG_SIZE);
      if |tag| < TAG_SIZE {
        return Err(Truncated(InTag));
      }
      if key.Some? && ComputeTag(p, key.value, plain.header, plain.payload) != tag {
        return Err(MacFailed);
      }
    } else if key.Some? {
      return Err(MacMissing);
    }
    return Ok(Frame(plain.flags, plain.payload));
  }

  method ReadPayload(p: Primitives, stream: ByteStream, key: Key, h: Header) returns (r: Result<Frame, WireError>)
    requires stream.Valid()
    modifies stream
    ensures stream.Valid()
    ensures var parsed := ParsePayload(p, key, h, old(stream.Remaining()));
            r == parsed.outcome && stream.Remaining() == old(stream.Remaining())[parsed.consumed..]
  {
    hide ParseBody;
    ghost var s := stream.Remaining();
    if h.magic != MAGIC {
      return Err(MagicMismatch);
    }
    if h.length > MAX_PAYLOAD {
      return Err(PayloadTooLarge(h.length));
    }
    var body := [];
    if h.length > 0 {
      body := stream.Read(h.length);
    }
    if |body| < h.length {
      assert stream.Remaining() == s[|s|..];
      return Err(Truncated(InPayload));
    }
    assert body == s[..h.length] && stream.Remaining() == s[h.length..];
    r := CheckBody(p, stream, key, h, body);
  }

  /** The reading code `read_frame` and `read_frame_from_bytes` share. */
  method ReadFrameAndFlags(p: Primitives, stream: ByteStream, key: Key) returns (r: Result<Frame, WireError>)
    requires stream.Valid()
    modifies stream
    ensures stream.Valid()
    ensures var parsed := Parse(p, key, old(stream.Remaining()));
            r == parsed.outcome && stream.Remaining() == old(stream.Remaining())[parsed.consumed..]
  {
    var header := stream.Read(HEADER_SIZE);
    if |header| < HEADER_SIZE {
      return Err(Truncated(InHeader));
    }
    r := ReadPayload(p, stream, key, UnpackHeader(header));
  }

  /** `read_frame`: the payload only. */
  method ReadFrame(p: Primitives, stream: ByteStream, key: Key) returns (r: Result<Bytes, WireError>)
    requires stream.Valid()
    modifies stream
    ensures stream.Valid()
    ensures var parsed := Parse(p, key, old(stream.Remaining()));
            && stream.Remaining() == old(stream.Remaining())[parsed.consumed..]
            && match parsed.outcome {
                 case Ok(f) => r == Ok(f.payload)
                 case Err(e) => r == Err(e)
               }
  {
    var f := ReadFrameAndFlags(p, stream, key);
    r := if f.Ok? then Ok(f.value.payload) else Err(f.error);
  }

  /** `read_frame_from_bytes`: one message, whose trailing bytes are ignored. */
  method ReadFrameFromBytes(p: Primitives, data: Bytes, key: Key) returns (r: Result<Frame, WireError>)
    ensures r == Parse(p, key, data).outcome
  {
    var stream := new ByteStream(data);
    r := ReadFrameAndFlags(p, stream, key);
  }

  /** The same checks over the stream reader. */
  method AsyncCheckBody(p: Primitives, reader: ByteStream, key: Key, h: Header, body: Bytes)
    returns (r: Result<Frame, WireError>)
    requires reader.Valid() && |body| <= MAX_PAYLOAD
    modifies reader
    ensures reader.Valid()
    ensures var parsed := ParseBody(p, key, h, body, old(reader.Remaining()));
            r == AsyncOutcome(parsed.outcome) && reader.Remaining() == old(reader.Remaining())[parsed.consumed..]
  {
    if p.crc32(body) != h.crc {
      return Err(CrcMismatch);
    }
    var normalized := Normalize(p, h.flags, h.target, body);
    if normalized.Err? {
      return Err(normalized.error);
    }
    var plain := normalized.value;
    if plain.flags.mac {
      var tag := reader.ReadExactly(TAG_SIZE);
      if tag.None? {
        return Err(IncompleteRead);
      }
      if key.Some? && ComputeTag(p, key.value, plain.header, plain.payload) != tag.value {
        return Err(MacFailed);
      }
    } else if key.Some? {
      return Err(MacMissing);
    }
    return Ok(Frame(plain.flags, plain.payload));
  }

  method AsyncReadPayload(p: Primitives, reader: ByteStream, key: Key, h: Header)
    returns (r: Result<Frame, WireError>)
    requires reader.Valid()
    modifies reader
    ensures reader.Valid()
    ensures var parsed := ParsePayload(p, key, h, old(reader.Remaining()));
            r == AsyncOutcome(parsed.outcome) && reader.Remaining() == old(reader.Remaining())[parsed.consumed..]
  {
    hide ParseBody;
    if h.magic != MAGIC {
      return Err(MagicMismatch);
    }
    if h.length > MAX_PAYLOAD {
      return Err(PayloadTooLarge(h.length));
    }
    var body := Some([]);
    if h.length > 0 {
      body := reader.ReadExactly(h.length);
    }
    if body.None? {
      return Err(IncompleteRead);
    }
    r := AsyncCheckBody(p, reader, key, h, body.value);
  }

  /** `async_read_frame`: the first byte is awaited on its own, then the rest of the frame. */
  method AsyncReadFrame(p: Primitives, reader: ByteStream, key: Key) returns (r: Result<Frame, WireError>)
    requires reader.Valid()
    modifies reader
    ensures reader.Valid()
    ensures var parsed := Parse(p, key, old(reader.Remaining()));
            r == AsyncOutcome(parsed.outcome) && reader.Remaining() == old(reader.Remaining())[parsed.consumed..]
  {
    ghost var s := reader.Remaining();
    var first := reader.ReadExactly(1);
    if first.None? {
      return Err(IncompleteRead);
    }
    var others := reader.ReadExactly(HEADER_SIZE - 1);
    if others.None? {
      return Err(IncompleteRead);
    }
    var header := first.value + others.value;
    assert header == s[..HEADER_SIZE] && reader.Remaining() == s[HEADER_SIZE..];
    r := AsyncReadPayload(p, reader, key, UnpackHeader(header));
  }
}
