/** The frame codec of vynkor/framing.py: header layout, encoder and readers. */
module Framing {
  import opened Wrappers
  import opened Octets

  const MAGIC: U16 := 0x5652
  const HEADER_SIZE := 44
  const TAG_SIZE := 32
  const MAX_PAYLOAD := 1_048_576
  const COMPRESS_THRESHOLD := 65_536
  const FRAG_HEADER_SIZE := 10

  type Tag = s: Bytes | |s| == 32 witness seq(32, _ => 0)
  type Target = s: Bytes | |s| == 32 witness seq(32, _ => 0)
  type Key = Option<Bytes>

  /** The library routines the codec calls. The types say all that is used of CRC32 and HMAC-SHA256:
      a 32-bit checksum, a 32-byte tag. */
  datatype Primitives = Primitives(
    crc32: Bytes -> U32,
    hmac: (Bytes, Bytes) -> Tag,
    compress: Bytes -> Bytes,
    decompress: Bytes -> Option<Bytes>)
  {
    /** zstd gives back what it was given, up to the protocol's payload limit. */
    ghost predicate Lossless() {
      forall s: Bytes {:trigger compress(s)} :: |s| <= MAX_PAYLOAD ==> decompress(compress(s)) == Some(s)
    }
  }

  datatype FramePart = InHeader | InPayload | InTag

  datatype WireError =
    | PayloadTooLarge(size: nat)
    | StructError                       // struct.pack: a field does not fit its width
    | MagicMismatch
    | CrcMismatch
    | Truncated(part: FramePart)        // VynkorIoError of the synchronous readers
    | IncompleteRead                    // asyncio.IncompleteReadError of the stream reader
    | DecompressFailed
    | MacFailed
    | MacMissing
    | FragmentHeaderTooShort
    | InvalidFragmentHeader(sequence: nat, total: nat)
    | FragmentTotalMismatch
    | TooManyStreams
    | MissingFragment                   // KeyError while joining a set judged complete
    | FragmentedOverWebSocket
    | ConnectionClosed                  // the WebSocket's receive raised
    | InvalidChunkSize(chunkSize: int)
    | TooManyFragments(count: nat)

  // ---------------------------------------------------------------------------
  // Flags
  // ---------------------------------------------------------------------------

  /** A flags word as its bits: 0x0001 MAC_PRESENT, 0x0002 COMPRESSED, 0x0004 FRAGMENTED, 0x0008 (unused),
      0x0010 RAW_BINARY, and everything from 0x0020 up. */
  datatype Flags = Flags(mac: bool, compressed: bool, fragmented: bool, bit3: bool, raw: bool, high: nat) {
    function Word(): nat {
      Bit(mac) + 2 * (Bit(compressed) + 2 * (Bit(fragmented) + 2 * (Bit(bit3) + 2 * (Bit(raw) + 2 * high))))
    }
  }

  function Bit(b: bool): nat {
    if b then 1 else 0
  }

  function FlagsOf(word: nat): Flags {
    var w1 := word / 2;
    var w2 := w1 / 2;
    var w3 := w2 / 2;
    var w4 := w3 / 2;
    Flags(word % 2 == 1, w1 % 2 == 1, w2 % 2 == 1, w3 % 2 == 1, w4 % 2 == 1, w4 / 2)
  }

  lemma Halve(word: nat, b: bool, rest: nat)
    requires word == Bit(b) + 2 * rest
    ensures word / 2 == rest && (word % 2 == 1 <==> b)
  {
  }

  lemma FlagsOfBits(f: Flags, word: nat, w1: nat, w2: nat, w3: nat, w4: nat)
    requires word == Bit(f.mac) + 2 * w1 && w1 == Bit(f.compressed) + 2 * w2 && w2 == Bit(f.fragmented) + 2 * w3
    requires w3 == Bit(f.bit3) + 2 * w4 && w4 == Bit(f.raw) + 2 * f.high
    ensures FlagsOf(word) == f
  {
    Halve(word, f.mac, w1);
    Halve(w1, f.compressed, w2);
    Halve(w2, f.fragmented, w3);
    Halve(w3, f.bit3, w4);
    Halve(w4, f.raw, f.high);
  }

  /** The two views of a flags word are the same thing. */
  lemma FlagsOfWord(f: Flags)
    ensures FlagsOf(f.Word()) == f
  {
    var w4 := Bit(f.raw) + 2 * f.high;
    var w3 := Bit(f.bit3) + 2 * w4;
    var w2 := Bit(f.fragmented) + 2 * w3;
    FlagsOfBits(f, f.Word(), Bit(f.compressed) + 2 * w2, w2, w3, w4);
  }

  lemma Unhalve(word: nat)
    ensures Bit(word % 2 == 1) + 2 * (word / 2) == word
  {
  }

  lemma WordOfFlags(word: nat)
    ensures FlagsOf(word).Word() == word
  {
    Unhalve(word);
    Unhalve(word / 2);
    Unhalve(word / 2 / 2);
    Unhalve(word / 2 / 2 / 2);
    Unhalve(word / 2 / 2 / 2 / 2);
  }

  /** Which bit of the word each flag is. */
  lemma WordBits(f: Flags)
    ensures f.Word() == (if f.mac then 0x0001 else 0) + (if f.compressed then 0x0002 else 0)
                        + (if f.fragmented then 0x0004 else 0) + (if f.bit3 then 0x0008 else 0)
                        + (if f.raw then 0x0010 else 0) + 0x0020 * f.high
  {
  }

  predicate Fits16(f: Flags) {
    f.Word() < 0x1_0000
  }

  const NO_FLAGS := Flags(false, false, false, false, false, 0)
  const FRAGMENTED := NO_FLAGS.(fragmented := true)

  type Flags16 = f: Flags | Fits16(f) witness NO_FLAGS

  // ---------------------------------------------------------------------------
  // Headers
  // ---------------------------------------------------------------------------

  datatype Header = Header(magic: U16, flags: Flags16, length: U32, target: Target, crc: U32)

  function PackHeader(h: Header): (s: Bytes)
    ensures |s| == HEADER_SIZE
  {
    PackU16(h.magic) + PackU16(h.flags.Word()) + PackU32(h.length) + h.target + PackU32(h.crc)
  }

  function FlagsField(word: U16): Flags16 {
    WordOfFlags(word);
    FlagsOf(word)
  }

  function UnpackHeader(s: Bytes): Header
    requires |s| == HEADER_SIZE
  {
    Header(UnpackU16(s[..2]), FlagsField(UnpackU16(s[2..4])), UnpackU32(s[4..8]), s[8..40], UnpackU32(s[40..]))
  }

  lemma UnpackPackHeader(h: Header)
    ensures UnpackHeader(PackHeader(h)) == h
  {
    var s := PackHeader(h);
    FlagsOfWord(h.flags);
    assert s[..2] == PackU16(h.magic);
    assert s[2..4] == PackU16(h.flags.Word());
    assert s[4..8] == PackU32(h.length);
    assert s[8..40] == h.target;
    assert s[40..] == PackU32(h.crc);
  }

  lemma PackUnpackHeader(s: Bytes)
    requires |s| == HEADER_SIZE
    ensures PackHeader(UnpackHeader(s)) == s
  {
    PackUnpackU16(s[..2]);
    PackUnpackU16(s[2..4]);
    PackUnpackU32(s[4..8]);
    PackUnpackU32(s[40..]);
    WordOfFlags(UnpackU16(s[2..4]));
    assert s == s[..2] + s[2..4] + s[4..8] + s[8..40] + s[40..];
  }

  /** The target name, already encoded, cut or zero-padded to the 32-byte field. */
  function TargetBytes(target: Bytes): (t: Target)
    ensures forall i :: 0 <= i < 32 ==> t[i] == if i < |target| then target[i] else 0
  {
    target[..Min(|target|, 32)] + seq(32 - Min(|target|, 32), _ => 0)
  }

  /** `header_bytes_for`: the header of an uncompressed payload, which is what the MAC covers. */
  function HeaderBytesFor(p: Primitives, flags: Flags16, target: Target, payload: Bytes): Bytes
    requires |payload| <= MAX_PAYLOAD
  {
    PackHeader(Header(MAGIC, flags, |payload|, target, p.crc32(payload)))
  }

  function ComputeTag(p: Primitives, key: Bytes, header: Bytes, payload: Bytes): Tag {
    p.hmac(key, header + payload)
  }

  // ---------------------------------------------------------------------------
  // Encoding
  // ---------------------------------------------------------------------------

  function WithMac(flags: Flags, key: Key): Flags {
    if key.Some? then flags.(mac := true) else flags
  }

  /** The bytes `pack_frame` puts on the wire in place of the payload, and the flags it announces. */
  function WireForm(p: Primitives, payload: Bytes, flags: Flags, compress: bool): (w: (Bytes, Flags))
    ensures |w.0| <= |payload|
    ensures Fits16(flags) ==> Fits16(w.1)
  {
    if compress && |payload| >= COMPRESS_THRESHOLD && !flags.compressed && !flags.raw
       && |p.compress(payload)| < |payload|
    then (p.compress(payload), flags.(compressed := true))
    else (payload, flags)
  }

  function PackFrame(p: Primitives, target: Bytes, payload: Bytes, flags: Flags, key: Key, compress: bool)
    : Result<Bytes, WireError>
  {
    if |payload| > MAX_PAYLOAD then Err(PayloadTooLarge(|payload|))
    else if !Fits16(WithMac(flags, key)) then Err(StructError)
    else
      var flags := WithMac(flags, key);
      var (body, wireFlags) := WireForm(p, payload, flags, compress);
      var header := PackHeader(Header(MAGIC, wireFlags, |body|, TargetBytes(target), p.crc32(body)));
      var tag := if key.Some?
                 then ComputeTag(p, key.value, HeaderBytesFor(p, flags, TargetBytes(target), payload), payload)
                 else [];
      Ok(header + body + tag)
  }

  // ---------------------------------------------------------------------------
  // Decoding
  // ---------------------------------------------------------------------------

  datatype Frame = Frame(flags: Flags, payload: Bytes)

  datatype Plain = Plain(flags: Flags16, header: Bytes, payload: Bytes)

  function Decompress(p: Primitives, body: Bytes): Result<Bytes, WireError> {
    match p.decompress(body)
    case None => Err(DecompressFailed)
    case Some(out) => if |out| > MAX_PAYLOAD then Err(PayloadTooLarge(|out|)) else Ok(out)
  }

  function Normalize(p: Primitives, flags: Flags16, target: Target, body: Bytes): Result<Plain, WireError>
    requires |body| <= MAX_PAYLOAD
  {
    if !flags.compressed then Ok(Plain(flags, HeaderBytesFor(p, flags, target, body), body))
    else
      match Decompress(p, body)
      case Err(e) => Err(e)
      case Ok(out) =>
        var plainFlags := flags.(compressed := false);
        Ok(Plain(plainFlags, HeaderBytesFor(p, plainFlags, target, out), out))
  }

  /** What a reader makes of the bytes ahead of it, and how many of them it takes. */
  datatype Parsed = Parsed(outcome: Result<Frame, WireError>, consumed: nat)

  function ParseTag(p: Primitives, key: Key, plain: Plain, after: Bytes): (r: Parsed)
    ensures r.consumed <= |after|
  {
    if plain.flags.mac then
      if |after| < TAG_SIZE then Parsed(Err(Truncated(InTag)), |after|)
      else if key.Some? && ComputeTag(p, key.value, plain.header, plain.payload) != after[..TAG_SIZE]
      then Parsed(Err(MacFailed), TAG_SIZE)
      else Parsed(Ok(Frame(plain.flags, plain.payload)), TAG_SIZE)
    else if key.Some? then Parsed(Err(MacMissing), 0)
    else Parsed(Ok(Frame(plain.flags, plain.payload)), 0)
  }

  function ParseBody(p: Primitives, key: Key, h: Header, body: Bytes, after: Bytes): (r: Parsed)
    requires |body| <= MAX_PAYLOAD
    ensures r.consumed <= |after|
  {
    if p.crc32(body) != h.crc then Parsed(Err(CrcMismatch), 0)
    else
      match Normalize(p, h.flags, h.target, body)
      case Err(e) => Parsed(Err(e), 0)
      case Ok(plain) => ParseTag(p, key, plain, after)
  }

  function ParsePayload(p: Primitives, key: Key, h: Header, s: Bytes): (r: Parsed)
    ensures r.consumed <= |s|
  {
    if h.magic != MAGIC then Parsed(Err(MagicMismatch), 0)
    else if h.length > MAX_PAYLOAD then Parsed(Err(PayloadTooLarge(h.length)), 0)
    else if |s| < h.length then Parsed(Err(Truncated(InPayload)), |s|)
    else
      var r := ParseBody(p, key, h, s[..h.length], s[h.length..]);
      Parsed(r.outcome, h.length + r.consumed)
  }

  /** One frame off the front of `s`. */
  function Parse(p: Primitives, key: Key, s: Bytes): (r: Parsed)
    ensures r.consumed <= |s|
    ensures r.outcome.Ok? ==> HEADER_SIZE <= r.consumed
  {
    if |s| < HEADER_SIZE then Parsed(Err(Truncated(InHeader)), |s|)
    else
      var r := ParsePayload(p, key, UnpackHeader(s[..HEADER_SIZE]), s[HEADER_SIZE..]);
      Parsed(r.outcome, HEADER_SIZE + r.consumed)
  }

  /** The stream reader reports a short read as its own exception. */
  function AsyncOutcome(r: Result<Frame, WireError>): Result<Frame, WireError> {
    if r.Err? && r.error.Truncated? then Err(IncompleteRead) else r
  }

  // ---------------------------------------------------------------------------
  // Fragment headers
  // ---------------------------------------------------------------------------

  datatype FragHeader = FragHeader(fragmentId: U16, sequence: U16, total: U16, streamId: U32)

  function PackFragHeader(h: FragHeader): (s: Bytes)
    ensures |s| == FRAG_HEADER_SIZE
  {
    PackU16(h.fragmentId) + PackU16(h.sequence) + PackU16(h.total) + PackU32(h.streamId)
  }

  function ParseFragHeader(payload: Bytes): Option<FragHeader> {
    if |payload| < FRAG_HEADER_SIZE then None
    else Some(FragHeader(UnpackU16(payload[..2]), UnpackU16(payload[2..4]), UnpackU16(payload[4..6]),
                         UnpackU32(payload[6..10])))
  }

  /** A packed fragment header parses back whatever chunk follows it. */
  lemma ParsePackedFragHeader(h: FragHeader, chunk: Bytes)
    ensures ParseFragHeader(PackFragHeader(h) + chunk) == Some(h)
    ensures (PackFragHeader(h) + chunk)[FRAG_HEADER_SIZE..] == chunk
  {
    var s := PackFragHeader(h) + chunk;
    assert s[..2] == PackU16(h.fragmentId);
    assert s[2..4] == PackU16(h.sequence);
    assert s[4..6] == PackU16(h.total);
    assert s[6..10] == PackU32(h.streamId);
  }

  /** The ten bytes of a fragment header: four big-endian fields in this order. */
  lemma FragHeaderBytes(h: FragHeader)
    ensures var s := PackFragHeader(h);
            && Number(s[..2]) == h.fragmentId && Number(s[2..4]) == h.sequence && Number(s[4..6]) == h.total
            && Number(s[6..10]) == h.streamId
  {
    var s := PackFragHeader(h);
    ParsePackedFragHeader(h, []);
    assert s + [] == s;
    UnpackU16IsNumber(s[..2]);
    UnpackU16IsNumber(s[2..4]);
    UnpackU16IsNumber(s[4..6]);
    UnpackU32IsNumber(s[6..10]);
    hide PackFragHeader, Number, UnpackU16, UnpackU32;
  }
}
