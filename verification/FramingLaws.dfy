/** What the frame codec guarantees: the parser accepts exactly the frames of a declarative layout, packed
    frames are self-delimiting, and no strict prefix of one is accepted. */
module FramingLaws {
  import opened Wrappers
  import opened Octets
  import opened Framing

  /** A frame as it lies on the wire, part by part. */
  datatype WireFrame = WireFrame(flags: Flags16, target: Target, body: Bytes, tag: Bytes)

  function HeaderOf(p: Primitives, w: WireFrame): Header
    requires |w.body| <= MAX_PAYLOAD
  {
    Header(MAGIC, w.flags, |w.body|, w.target, p.crc32(w.body))
  }

  function Serialize(p: Primitives, w: WireFrame): Bytes
    requires |w.body| <= MAX_PAYLOAD
  {
    PackHeader(HeaderOf(p, w)) + w.body + w.tag
  }

  /** Wire frame `w` legally carries `f` on a connection keyed by `key`. The tag is the HMAC of the frame as it would lie on
      the wire uncompressed. */
  ghost predicate Carries(p: Primitives, key: Key, w: WireFrame, f: Frame) {
    && |w.body| <= MAX_PAYLOAD
    && |f.payload| <= MAX_PAYLOAD
    && (if w.flags.compressed then p.decompress(w.body) == Some(f.payload) else f.payload == w.body)
    && f.flags == w.flags.(compressed := false)
    && (if w.flags.mac then
          && |w.tag| == TAG_SIZE
          && (key.Some? ==> w.tag == p.hmac(key.value, Serialize(p, WireFrame(f.flags, w.target, f.payload, []))))
        else
          w.tag == [] && key.None?)
  }

  /** The bytes the code feeds to the HMAC are those of the uncompressed frame. */
  lemma TagInput(p: Primitives, flags: Flags16, target: Target, payload: Bytes)
    requires |payload| <= MAX_PAYLOAD
    ensures HeaderBytesFor(p, flags, target, payload) + payload == Serialize(p, WireFrame(flags, target, payload, []))
  {
    var plain := HeaderBytesFor(p, flags, target, payload) + payload;
    assert plain + [] == plain;
  }

  /** Where a cut through three consecutive parts falls. */
  lemma CutInBody(a: Bytes, b: Bytes, c: Bytes, n: nat)
    requires |a| <= n <= |a| + |b|
    ensures (a + b + c)[..n] == a + b[..n - |a|]
  {
  }

  lemma CutInTag(a: Bytes, b: Bytes, c: Bytes, n: nat)
    requires |a| + |b| <= n <= |a + b + c|
    ensures (a + b + c)[..n] == a + b + c[..n - |a| - |b|]
  {
  }

  lemma Recut(s: Bytes, i: nat, j: nat, k: nat)
    requires i + j + k <= |s|
    ensures s[..i + j + k] == s[..i] + s[i..][..j] + s[i..][j..][..k]
  {
  }

  lemma ParseAt(p: Primitives, key: Key, h: Header, body: Bytes, after: Bytes)
    requires h.magic == MAGIC && h.length == |body| <= MAX_PAYLOAD
    ensures var r := ParseBody(p, key, h, body, after);
            Parse(p, key, PackHeader(h) + body + after) == Parsed(r.outcome, HEADER_SIZE + |body| + r.consumed)
  {
    var s := PackHeader(h) + body + after;
    UnpackPackHeader(h);
    assert s[..HEADER_SIZE] == PackHeader(h);
    assert s[HEADER_SIZE..] == body + after;
    assert (body + after)[..|body|] == body && (body + after)[|body|..] == after;
  }

  lemma ParseCarried(p: Primitives, key: Key, w: WireFrame, f: Frame, rest: Bytes)
    requires Carries(p, key, w, f)
    ensures ParseBody(p, key, HeaderOf(p, w), w.body, w.tag + rest) == Parsed(Ok(f), |w.tag|)
  {
    TagInput(p, f.flags, w.target, f.payload);
    assert (w.tag + rest)[..|w.tag|] == w.tag;
  }

  /** Completeness: whatever legally carries a frame is read as that frame, and nothing behind it is touched. */
  lemma ParseSerialized(p: Primitives, key: Key, w: WireFrame, f: Frame, rest: Bytes)
    requires Carries(p, key, w, f)
    ensures Parse(p, key, Serialize(p, w) + rest) == Parsed(Ok(f), |Serialize(p, w)|)
  {
    ParseCarried(p, key, w, f, rest);
    ParseAt(p, key, HeaderOf(p, w), w.body, w.tag + rest);
    Reassociate(PackHeader(HeaderOf(p, w)), w.body, w.tag, rest);
  }

  lemma Reassociate(a: Bytes, b: Bytes, c: Bytes, d: Bytes)
    ensures a + b + c + d == a + b + (c + d)
  {
  }

  lemma BodyLayout(p: Primitives, key: Key, h: Header, body: Bytes, after: Bytes, f: Frame)
    requires |body| <= MAX_PAYLOAD
    requires ParseBody(p, key, h, body, after).outcome == Ok(f)
    ensures h.crc == p.crc32(body)
    ensures Carries(p, key, WireFrame(h.flags, h.target, body, after[..ParseBody(p, key, h, body, after).consumed]), f)
  {
    TagInput(p, f.flags, h.target, f.payload);
  }

  /** Soundness: an accepted prefix is the serialization of a wire frame that carries the result. */
  lemma ParsedLayout(p: Primitives, key: Key, s: Bytes, f: Frame) returns (w: WireFrame)
    requires Parse(p, key, s).outcome == Ok(f)
    ensures Carries(p, key, w, f) && s[..Parse(p, key, s).consumed] == Serialize(p, w)
  {
    var head, tail := s[..HEADER_SIZE], s[HEADER_SIZE..];
    var h := UnpackHeader(head);
    var body, after := tail[..h.length], tail[h.length..];
    var r := ParseBody(p, key, h, body, after);
    assert Parse(p, key, s) == Parsed(r.outcome, HEADER_SIZE + h.length + r.consumed);
    BodyLayout(p, key, h, body, after, f);
    w := WireFrame(h.flags, h.target, body, after[..r.consumed]);
    PackUnpackHeader(head);
    Recut(s, HEADER_SIZE, h.length, r.consumed);
  }

  /** Parser exactness. */
  lemma {:induction false} ParserExact(p: Primitives, key: Key, s: Bytes, f: Frame, n: nat)
    ensures Parse(p, key, s) == Parsed(Ok(f), n)
       <==> exists w :: Carries(p, key, w, f) && n <= |s| && s[..n] == Serialize(p, w)
    ensures Parse(p, key, s) == Parsed(Ok(f), n) ==> |f.payload| <= MAX_PAYLOAD && !f.flags.compressed
  {
    hide Parse, Serialize, HeaderBytesFor;
    if Parse(p, key, s) == Parsed(Ok(f), n) {
      var w := ParsedLayout(p, key, s, f);
    }
    if w :| Carries(p, key, w, f) && n <= |s| && s[..n] == Serialize(p, w) {
      ParseSerialized(p, key, w, f, s[n..]);
      assert Serialize(p, w) + s[n..] == s;
    }
  }

  /** On a keyed connection only tagged frames get through, and the tag is the HMAC of the whole frame as it would lie on
      the wire uncompressed: for a frame that is, of all its bytes before the tag. */
  lemma {:induction false} KeyedAcceptance(p: Primitives, key: Bytes, s: Bytes)
    requires Parse(p, Some(key), s).outcome.Ok?
    ensures var r := Parse(p, Some(key), s);
            var f, n := r.outcome.value, r.consumed;
            && f.flags.mac && Fits16(f.flags) && |f.payload| <= MAX_PAYLOAD
            && HEADER_SIZE + TAG_SIZE <= n <= |s|
            && s[n - TAG_SIZE..n] == p.hmac(key, Serialize(p, WireFrame(f.flags, s[8..40], f.payload, [])))
            && (!FlagsOf(Number(s[2..4])).compressed ==> s[n - TAG_SIZE..n] == p.hmac(key, s[..n - TAG_SIZE]))
  {
    var r := Parse(p, Some(key), s);
    var w := ParsedLayout(p, Some(key), s, r.outcome.value);
    hide Parse, Serialize;
    KeyedWire(p, key, w, r.outcome.value, s, r.consumed);
  }

  lemma KeyedWire(p: Primitives, key: Bytes, w: WireFrame, f: Frame, s: Bytes, n: nat)
    requires Carries(p, Some(key), w, f) && n <= |s| && s[..n] == Serialize(p, w)
    ensures f.flags.mac && HEADER_SIZE + TAG_SIZE <= n
    ensures s[n - TAG_SIZE..n] == p.hmac(key, Serialize(p, WireFrame(f.flags, s[8..40], f.payload, [])))
    ensures !FlagsOf(Number(s[2..4])).compressed ==> s[n - TAG_SIZE..n] == p.hmac(key, s[..n - TAG_SIZE])
  {
    var a := PackHeader(HeaderOf(p, w));
    UnpackPackHeader(HeaderOf(p, w));
    OuterParts(s, n, a, w.body, w.tag);
    UnpackU16IsNumber(s[2..4]);
    FlagsOfWord(w.flags);
    if !w.flags.compressed {
      assert Serialize(p, WireFrame(w.flags, w.target, w.body, [])) == a + w.body;
      assert s[..n - TAG_SIZE] == s[..n][..n - TAG_SIZE] == a + w.body;
    }
  }

  lemma OuterParts(s: Bytes, n: nat, a: Bytes, b: Bytes, c: Bytes)
    requires |a| == HEADER_SIZE && n <= |s| && s[..n] == a + b + c
    ensures s[2..4] == a[2..4] && s[8..40] == a[8..40] && s[n - |c|..n] == c
  {
    assert s[2..4] == s[..n][2..4] && s[8..40] == s[..n][8..40] && s[n - |c|..n] == s[..n][n - |c|..];
  }

  // ---------------------------------------------------------------------------
  // Round trip
  // ---------------------------------------------------------------------------

  /** The flags a caller may pass: neither COMPRESSED, nor MAC_PRESENT without a key to honour it. */
  predicate LegalFlags(flags: Flags, key: Key) {
    Fits16(flags) && !flags.compressed && (flags.mac ==> key.Some?)
  }

  lemma FitsWithMac(flags: Flags, key: Key)
    ensures Fits16(WithMac(flags, key)) <==> Fits16(flags)
  {
  }

  /** The layout `pack_frame` writes. */
  function PackedLayout(p: Primitives, target: Bytes, payload: Bytes, flags: Flags, key: Key, compress: bool)
    : (w: WireFrame)
    requires |payload| <= MAX_PAYLOAD && Fits16(WithMac(flags, key))
    ensures |w.body| <= MAX_PAYLOAD
  {
    var flags := WithMac(flags, key);
    var (body, wireFlags) := WireForm(p, payload, flags, compress);
    WireFrame(wireFlags, TargetBytes(target), body,
              if key.Some?
              then ComputeTag(p, key.value, HeaderBytesFor(p, flags, TargetBytes(target), payload), payload)
              else [])
  }

  lemma PackSerializes(p: Primitives, target: Bytes, payload: Bytes, flags: Flags, key: Key, compress: bool)
    requires |payload| <= MAX_PAYLOAD && Fits16(WithMac(flags, key))
    ensures PackFrame(p, target, payload, flags, key, compress)
         == Ok(Serialize(p, PackedLayout(p, target, payload, flags, key, compress)))
  {
  }

  lemma PackedCarries(p: Primitives, target: Bytes, payload: Bytes, flags: Flags, key: Key, compress: bool)
    requires compress ==> p.Lossless()
    requires |payload| <= MAX_PAYLOAD && LegalFlags(flags, key)
    ensures Fits16(WithMac(flags, key))
    ensures Carries(p, key, PackedLayout(p, target, payload, flags, key, compress),
                    Frame(WithMac(flags, key), payload))
  {
    FitsWithMac(flags, key);
    TagInput(p, WithMac(flags, key), TargetBytes(target), payload);
  }

  /** Packed frames are self-delimiting: a reader with the writer's key, or with none, gets back exactly the
      payload and flags and stops exactly at the end of the frame. */
  lemma SelfDelimiting(p: Primitives, target: Bytes, payload: Bytes, flags: Flags, key: Key, compress: bool,
                       readerKey: Key, rest: Bytes)
    requires compress ==> p.Lossless()
    requires |payload| <= MAX_PAYLOAD && LegalFlags(flags, key)
    requires readerKey == key || readerKey == None
    ensures var packed := PackFrame(p, target, payload, flags, key, compress);
            && packed.Ok?
            && Parse(p, readerKey, packed.value + rest)
               == Parsed(Ok(Frame(WithMac(flags, key), payload)), |packed.value|)
  {
    PackedCarries(p, target, payload, flags, key, compress);
    PackSerializes(p, target, payload, flags, key, compress);
    ParseSerialized(p, readerKey, PackedLayout(p, target, payload, flags, key, compress),
                    Frame(WithMac(flags, key), payload), rest);
  }

  ghost predicate RoundTrips(p: Primitives, target: Bytes, payload: Bytes, flags: Flags, key: Key, compress: bool,
                             rest: Bytes)
  {
    var packed := PackFrame(p, target, payload, flags, key, compress);
    && packed.Ok?
    && Parse(p, key, packed.value + rest) == Parsed(Ok(Frame(WithMac(flags, key), payload)), |packed.value|)
  }

  /** The round trip holds for exactly the legal arguments. */
  lemma RoundTripExactly(p: Primitives, target: Bytes, payload: Bytes, flags: Flags, key: Key, compress: bool,
                         rest: Bytes)
    requires compress ==> p.Lossless()
    ensures RoundTrips(p, target, payload, flags, key, compress, rest)
       <==> |payload| <= MAX_PAYLOAD && LegalFlags(flags, key)
  {
    FitsWithMac(flags, key);
    if |payload| <= MAX_PAYLOAD && Fits16(flags) {
      if LegalFlags(flags, key) {
        SelfDelimiting(p, target, payload, flags, key, compress, key, rest);
      } else {
        IllegalFlagsMisread(p, target, payload, flags, key, compress, rest);
      }
    }
  }

  lemma IllegalFlagsMisread(p: Primitives, target: Bytes, payload: Bytes, flags: Flags, key: Key, compress: bool,
                            rest: Bytes)
    requires |payload| <= MAX_PAYLOAD && Fits16(WithMac(flags, key)) && !LegalFlags(flags, key)
    ensures !RoundTrips(p, target, payload, flags, key, compress, rest)
  {
    FitsWithMac(flags, key);
    PackSerializes(p, target, payload, flags, key, compress);
    var w := PackedLayout(p, target, payload, flags, key, compress);
    var h := HeaderOf(p, w);
    var frame := Serialize(p, w);
    assert frame + rest == PackHeader(h) + w.body + (w.tag + rest);
    ParseAt(p, key, h, w.body, w.tag + rest);
    if flags.compressed {
      ParserExact(p, key, frame + rest, Frame(WithMac(flags, key), payload), |frame|);
    }
  }

  /** A caller who sets MAC_PRESENT without a key makes the reader swallow 32 bytes of whatever comes next. */
  lemma UnkeyedMacFlagEatsTheNextFrame(p: Primitives, target: Bytes, payload: Bytes, flags: Flags, compress: bool,
                                       rest: Bytes)
    requires compress ==> p.Lossless()
    requires |payload| <= MAX_PAYLOAD && Fits16(flags) && flags.mac && !flags.compressed
    ensures var packed := PackFrame(p, target, payload, flags, None, compress);
            && packed.Ok?
            && Parse(p, None, packed.value + rest)
               == if |rest| >= TAG_SIZE then Parsed(Ok(Frame(flags, payload)), |packed.value| + TAG_SIZE)
                  else Parsed(Err(Truncated(InTag)), |packed.value| + |rest|)
  {
    hide Parse;
    PackSerializes(p, target, payload, flags, None, compress);
    var w := PackedLayout(p, target, payload, flags, None, compress);
    var h := HeaderOf(p, w);
    assert Serialize(p, w) + rest == PackHeader(h) + w.body + rest;
    ParseAt(p, None, h, w.body, rest);
  }

  // ---------------------------------------------------------------------------
  // Truncation
  // ---------------------------------------------------------------------------

  /** Every strict prefix of a legal frame is refused as truncated, in the part where it stops, and is used up. */
  lemma StrictPrefixTruncated(p: Primitives, key: Key, w: WireFrame, f: Frame, n: nat)
    requires Carries(p, key, w, f)
    requires n < |Serialize(p, w)|
    ensures var part := if n < HEADER_SIZE then InHeader
                        else if n < HEADER_SIZE + |w.body| then InPayload
                        else InTag;
            Parse(p, key, Serialize(p, w)[..n]) == Parsed(Err(Truncated(part)), n)
  {
    if n < HEADER_SIZE {
      ParseShortHeader(p, key, Serialize(p, w)[..n]);
    } else if n < HEADER_SIZE + |w.body| {
      PrefixInBody(p, key, w, n);
    } else {
      PrefixInTag(p, key, w, f, n);
    }
  }

  lemma PrefixInBody(p: Primitives, key: Key, w: WireFrame, n: nat)
    requires HEADER_SIZE <= n < HEADER_SIZE + |w.body| <= HEADER_SIZE + MAX_PAYLOAD
    ensures Parse(p, key, Serialize(p, w)[..n]) == Parsed(Err(Truncated(InPayload)), n)
  {
    var head := PackHeader(HeaderOf(p, w));
    CutInBody(head, w.body, w.tag, n);
    ParseShortBody(p, key, HeaderOf(p, w), w.body[..n - HEADER_SIZE]);
  }

  lemma PrefixInTag(p: Primitives, key: Key, w: WireFrame, f: Frame, n: nat)
    requires Carries(p, key, w, f)
    requires HEADER_SIZE + |w.body| <= n < |Serialize(p, w)|
    ensures Parse(p, key, Serialize(p, w)[..n]) == Parsed(Err(Truncated(InTag)), n)
  {
    var part := w.tag[..n - HEADER_SIZE - |w.body|];
    CutInTag(PackHeader(HeaderOf(p, w)), w.body, w.tag, n);
    ParseUpToTag(p, key, w, f, part, Serialize(p, w)[..n]);
  }

  lemma ParseUpToTag(p: Primitives, key: Key, w: WireFrame, f: Frame, part: Bytes, s: Bytes)
    requires Carries(p, key, w, f) && |part| < |w.tag|
    requires s == PackHeader(HeaderOf(p, w)) + w.body + part
    ensures Parse(p, key, s) == Parsed(Err(Truncated(InTag)), |s|)
  {
    ParseAt(p, key, HeaderOf(p, w), w.body, part);
    ParseShortTag(p, key, w, f, part);
  }

  lemma ParseShortHeader(p: Primitives, key: Key, s: Bytes)
    requires |s| < HEADER_SIZE
    ensures Parse(p, key, s) == Parsed(Err(Truncated(InHeader)), |s|)
  {
  }

  lemma ParseShortBody(p: Primitives, key: Key, h: Header, part: Bytes)
    requires h.magic == MAGIC && |part| < h.length <= MAX_PAYLOAD
    ensures Parse(p, key, PackHeader(h) + part) == Parsed(Err(Truncated(InPayload)), HEADER_SIZE + |part|)
  {
    UnpackPackHeader(h);
    assert (PackHeader(h) + part)[..HEADER_SIZE] == PackHeader(h) && (PackHeader(h) + part)[HEADER_SIZE..] == part;
  }

  lemma ParseShortTag(p: Primitives, key: Key, w: WireFrame, f: Frame, part: Bytes)
    requires Carries(p, key, w, f) && |part| < |w.tag|
    ensures ParseBody(p, key, HeaderOf(p, w), w.body, part) == Parsed(Err(Truncated(InTag)), |part|)
  {
  }

  // ---------------------------------------------------------------------------
  // The bytes themselves
  // ---------------------------------------------------------------------------

  /** When `pack_frame` sends the compressed form. */
  predicate Shrinks(p: Primitives, payload: Bytes, flags: Flags, compress: bool) {
    compress && |payload| >= 65_536 && !flags.compressed && !flags.raw && |p.compress(payload)| < |payload|
  }

  lemma HeaderFields(h: Header)
    ensures var v := PackHeader(h);
            && Number(v[..2]) == h.magic && Number(v[2..4]) == h.flags.Word() && Number(v[4..8]) == h.length
            && v[8..40] == h.target && Number(v[40..44]) == h.crc
  {
    UnpackPackHeader(h);
    FieldsOf(PackHeader(h));
  }

  /** The header fields are the numbers its bytes spell. */
  lemma FieldsOf(v: Bytes)
    requires |v| == HEADER_SIZE
    ensures var h := UnpackHeader(v);
            && Number(v[..2]) == h.magic && Number(v[2..4]) == h.flags.Word() && Number(v[4..8]) == h.length
            && v[8..40] == h.target && Number(v[40..44]) == h.crc
  {
    assert v[40..44] == v[40..];
    UnpackU16IsNumber(v[..2]);
    UnpackU16IsNumber(v[2..4]);
    UnpackU32IsNumber(v[4..8]);
    UnpackU32IsNumber(v[40..44]);
    WordOfFlags(UnpackU16(v[2..4]));
    hide Number, PackU16, PackU32;
  }

  /** A packed frame byte by byte: magic, flags word, length, target and CRC, big-endian, then the body and the tag. The
      body is the payload, or its compressed form when that is allowed, worthwhile and shorter. */
  lemma PackedBytes(p: Primitives, target: Bytes, payload: Bytes, flags: Flags, key: Key, compress: bool)
    requires |payload| <= MAX_PAYLOAD && Fits16(flags)
    ensures var packed := PackFrame(p, target, payload, flags, key, compress);
            && packed.Ok?
            && var v, body := packed.value, if Shrinks(p, payload, flags, compress) then p.compress(payload) else payload;
            && |v| == 44 + |body| + (if key.Some? then 32 else 0)
            && v[0] == 0x56 && v[1] == 0x52
            && Number(v[2..4]) == flags.Word() + (if key.Some? && !flags.mac then 0x0001 else 0)
                                  + (if Shrinks(p, payload, flags, compress) then 0x0002 else 0)
            && Number(v[4..8]) == |body|
            && (forall i :: 0 <= i < 32 ==> v[8 + i] == if i < |target| then target[i] else 0)
            && Number(v[40..44]) == p.crc32(body)
            && v[44..44 + |body|] == body
  {
    FitsWithMac(flags, key);
    PackSerializes(p, target, payload, flags, key, compress);
    var w := PackedLayout(p, target, payload, flags, key, compress);
    PackedFlags(p, target, payload, flags, key, compress);
    HeaderFields(HeaderOf(p, w));
    hide PackHeader, PackFrame, PackedLayout, WithMac, Fits16, TargetBytes, Number;
    LaidOut(PackHeader(HeaderOf(p, w)), w.body, w.tag, Serialize(p, w));
    MagicBytes(PackHeader(HeaderOf(p, w)));
  }

  lemma PackedFlags(p: Primitives, target: Bytes, payload: Bytes, flags: Flags, key: Key, compress: bool)
    requires |payload| <= MAX_PAYLOAD && Fits16(WithMac(flags, key))
    ensures var w := PackedLayout(p, target, payload, flags, key, compress);
            && w.body == (if Shrinks(p, payload, flags, compress) then p.compress(payload) else payload)
            && |w.tag| == (if key.Some? then 32 else 0)
            && w.flags.Word() == flags.Word() + (if key.Some? && !flags.mac then 0x0001 else 0)
                                 + (if Shrinks(p, payload, flags, compress) then 0x0002 else 0)
            && forall i :: 0 <= i < 32 ==> w.target[i] == if i < |target| then target[i] else 0
  {
    WordWith(flags);
    WordWith(WithMac(flags, key));
    hide Flags.Word, FlagsOf;
  }

  lemma WordWith(f: Flags)
    ensures f.(mac := true).Word() == f.Word() + if f.mac then 0 else 0x0001
    ensures f.(compressed := true).Word() == f.Word() + if f.compressed then 0 else 0x0002
  {
    WordBits(f);
    WordBits(f.(mac := true));
    WordBits(f.(compressed := true));
    hide Flags.Word;
  }

  lemma LaidOut(head: Bytes, body: Bytes, tag: Bytes, v: Bytes)
    requires |head| == 44 && v == head + body + tag
    ensures |v| == 44 + |body| + |tag| && v[44..44 + |body|] == body
    ensures v[..2] == head[..2] && v[2..4] == head[2..4] && v[4..8] == head[4..8]
    ensures v[8..40] == head[8..40] && v[40..44] == head[40..44]
    ensures forall i :: 0 <= i < 44 ==> v[i] == head[i]
  {
  }

  lemma MagicBytes(head: Bytes)
    requires |head| == 44 && Number(head[..2]) == 0x5652
    ensures head[0] == 0x56 && head[1] == 0x52
  {
    UnpackU16IsNumber(head[..2]);
  }

  /** The MAC of a packed frame covers every byte before it; compressing the body on the wire changes neither the tag nor
      what it covers. */
  lemma PackedTag(p: Primitives, target: Bytes, payload: Bytes, flags: Flags, key: Bytes, compress: bool)
    requires |payload| <= MAX_PAYLOAD && Fits16(flags)
    ensures var plain := PackFrame(p, target, payload, flags, Some(key), false);
            var packed := PackFrame(p, target, payload, flags, Some(key), compress);
            && plain.Ok? && packed.Ok? && |plain.value| >= TAG_SIZE && |packed.value| >= TAG_SIZE
            && var (v, n) := (plain.value, |plain.value| - TAG_SIZE);
            && v[n..] == p.hmac(key, v[..n])
            && packed.value[|packed.value| - TAG_SIZE..] == v[n..]
  {
    FitsWithMac(flags, Some(key));
    TagAtEnd(p, target, payload, flags, key, false);
    TagAtEnd(p, target, payload, flags, key, compress);
  }

  lemma TagAtEnd(p: Primitives, target: Bytes, payload: Bytes, flags: Flags, key: Bytes, compress: bool)
    requires |payload| <= MAX_PAYLOAD && Fits16(WithMac(flags, Some(key)))
    ensures var packed := PackFrame(p, target, payload, flags, Some(key), compress);
            var plain := HeaderBytesFor(p, WithMac(flags, Some(key)), TargetBytes(target), payload) + payload;
            && packed.Ok? && |packed.value| >= TAG_SIZE
            && packed.value[|packed.value| - TAG_SIZE..] == p.hmac(key, plain)
            && (!compress ==> packed.value[..|packed.value| - TAG_SIZE] == plain)
  {
  }

  // ---------------------------------------------------------------------------
  // Refusals
  // ---------------------------------------------------------------------------

  /** Which bytes are refused, and why: magic, length, payload, CRC and compression are looked at in this order. */
  lemma Refusals(p: Primitives, key: Key, s: Bytes)
    requires |s| >= 44
    ensures var length, o := Number(s[4..8]), Parse(p, key, s).outcome;
            if Number(s[..2]) != 0x5652 then o == Err(MagicMismatch)
            else if length > 1_048_576 then o == Err(PayloadTooLarge(length))
            else if |s| < 44 + length then o == Err(Truncated(InPayload))
            else if p.crc32(s[44..44 + length]) != Number(s[40..44]) then o == Err(CrcMismatch)
            else
              && o != Err(MagicMismatch) && o != Err(Truncated(InPayload)) && o != Err(CrcMismatch)
              && var plain := p.decompress(s[44..44 + length]);
                 FlagsOf(Number(s[2..4])).compressed ==>
                   && (plain == None ==> o == Err(DecompressFailed))
                   && (plain.Some? && |plain.value| > 1_048_576 ==> o == Err(PayloadTooLarge(|plain.value|)))
  {
    var head, tail := s[..44], s[44..];
    assert head[..2] == s[..2] && head[2..4] == s[2..4] && head[4..8] == s[4..8] && head[40..44] == s[40..44];
    FieldsOf(head);
    FlagsOfWord(UnpackHeader(head).flags);
    var length := Number(s[4..8]);
    if 44 + length <= |s| {
      assert tail[..length] == s[44..44 + length];
    }
    hide Number, FlagsOf, UnpackHeader;
    PayloadRefusals(p, key, UnpackHeader(head), tail);
  }

  lemma PayloadRefusals(p: Primitives, key: Key, h: Header, s: Bytes)
    ensures var o := ParsePayload(p, key, h, s).outcome;
            if h.magic != 0x5652 then o == Err(MagicMismatch)
            else if h.length > 1_048_576 then o == Err(PayloadTooLarge(h.length))
            else if |s| < h.length then o == Err(Truncated(InPayload))
            else if p.crc32(s[..h.length]) != h.crc then o == Err(CrcMismatch)
            else
              && o != Err(MagicMismatch) && o != Err(Truncated(InPayload)) && o != Err(CrcMismatch)
              && var plain := p.decompress(s[..h.length]);
                 h.flags.compressed ==>
                   && (plain == None ==> o == Err(DecompressFailed))
                   && (plain.Some? && |plain.value| > 1_048_576 ==> o == Err(PayloadTooLarge(|plain.value|)))
  {
    hide HeaderBytesFor;
  }

  /** What a key adds to reading: the same frame must have a tag, and the tag must be the HMAC of the frame uncompressed.
      Everything else is as without a key. */
  lemma KeyedReading(p: Primitives, key: Bytes, s: Bytes)
    ensures var plain, keyed := Parse(p, None, s), Parse(p, Some(key), s);
            if plain.outcome.Err? then keyed == plain
            else
              var f, n := plain.outcome.value, plain.consumed;
              && |f.payload| <= MAX_PAYLOAD && Fits16(f.flags) && HEADER_SIZE <= n <= |s|
              && if !f.flags.mac then keyed == Parsed(Err(MacMissing), n)
                 else
                   && n >= HEADER_SIZE + TAG_SIZE
                   && keyed == if s[n - TAG_SIZE..n] == p.hmac(key, Serialize(p, WireFrame(f.flags, s[8..40], f.payload, [])))
                               then plain else Parsed(Err(MacFailed), n)
  {
    hide ParsePayload, Serialize, UnpackU16, UnpackU32, FlagsField;
    if |s| >= HEADER_SIZE {
      var head, tail := s[..HEADER_SIZE], s[HEADER_SIZE..];
      assert UnpackHeader(head).target == s[8..40];
      hide UnpackHeader;
      KeyedPayload(p, key, UnpackHeader(head), tail);
      var n := Parse(p, None, s).consumed;
      if n >= HEADER_SIZE + TAG_SIZE {
        TailTag(s, n);
      }
    }
  }

  lemma TailTag(s: Bytes, n: nat)
    requires HEADER_SIZE + TAG_SIZE <= n <= |s|
    ensures s[HEADER_SIZE..][n - HEADER_SIZE - TAG_SIZE..n - HEADER_SIZE] == s[n - TAG_SIZE..n]
  {
  }

  lemma KeyedPayload(p: Primitives, key: Bytes, h: Header, s: Bytes)
    ensures var plain, keyed := ParsePayload(p, None, h, s), ParsePayload(p, Some(key), h, s);
            if plain.outcome.Err? then keyed == plain
            else
              var f, n := plain.outcome.value, plain.consumed;
              && |f.payload| <= MAX_PAYLOAD && Fits16(f.flags) && n <= |s|
              && if !f.flags.mac then keyed == Parsed(Err(MacMissing), n)
                 else
                   && n >= TAG_SIZE
                   && keyed == if s[n - TAG_SIZE..n] == p.hmac(key, Serialize(p, WireFrame(f.flags, h.target, f.payload, [])))
                               then plain else Parsed(Err(MacFailed), n)
  {
    if h.magic == MAGIC && h.length <= MAX_PAYLOAD && h.length <= |s| {
      KeyedBody(p, key, h, s[..h.length], s[h.length..]);
      var plain := ParseBody(p, None, h, s[..h.length], s[h.length..]);
      if plain.outcome.Ok? && plain.outcome.value.flags.mac {
        assert s[h.length..][..TAG_SIZE] == s[h.length..h.length + TAG_SIZE];
      }
      hide ParseBody, Serialize;
    }
  }

  lemma KeyedBody(p: Primitives, key: Bytes, h: Header, body: Bytes, after: Bytes)
    requires |body| <= MAX_PAYLOAD
    ensures var plain, keyed := ParseBody(p, None, h, body, after), ParseBody(p, Some(key), h, body, after);
            if plain.outcome.Err? then keyed == plain
            else
              var f := plain.outcome.value;
              && |f.payload| <= MAX_PAYLOAD && Fits16(f.flags)
              && if !f.flags.mac then plain.consumed == 0 && keyed == Parsed(Err(MacMissing), 0)
                 else
                   && plain.consumed == TAG_SIZE <= |after|
                   && keyed == if after[..TAG_SIZE] == p.hmac(key, Serialize(p, WireFrame(f.flags, h.target, f.payload, [])))
                               then plain else Parsed(Err(MacFailed), TAG_SIZE)
  {
    var plain := ParseBody(p, None, h, body, after);
    if plain.outcome.Ok? {
      TagInput(p, plain.outcome.value.flags, h.target, plain.outcome.value.payload);
    }
    hide Serialize, HeaderBytesFor;
  }
}
