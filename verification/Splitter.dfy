/** How `send_fragmented` of vynkor/client.py cuts a payload up and numbers the stream. */
module Splitter {
  import opened Wrappers
  import opened Octets
  import opened Framing

  const MAX_FRAGMENTS := 0xFFFF

  /** `max(1, -(-n // k))`. Python's `//` floors, as Dafny's `/` does for a positive divisor. */
  function FragmentCount(length: nat, chunkSize: int): nat
    requires chunkSize > 0
  {
    var n: int := length;
    var ceiling := -((-n) / chunkSize);
    if ceiling > 1 then ceiling else 1
  }

  /** `payload[seq * chunk_size : (seq + 1) * chunk_size]` */
  function ChunkAt(payload: Bytes, chunkSize: nat, sequence: nat): Bytes {
    Slice(payload, sequence * chunkSize, sequence * chunkSize + chunkSize)
  }

  lemma NegativeQuotient(n: int, q: int, k: int)
    requires n > 0 && k > 0 && q * k <= -n
    ensures q < 0
  {
  }

  lemma Ceiling(length: nat, chunkSize: int)
    requires chunkSize > 0
    ensures var t := FragmentCount(length, chunkSize);
            && length <= t * chunkSize
            && (length > 0 ==> (t - 1) * chunkSize < length)
            && (length == 0 ==> t == 1)
  {
    var n: int := length;
    var q, r := (-n) / chunkSize, (-n) % chunkSize;
    assert -n == q * chunkSize + r;
    assert (-q - 1) * chunkSize == length + r - chunkSize;
    if length > 0 {
      NegativeQuotient(n, q, chunkSize);
    }
  }

  /** Bytes covered by the first `m` slices. */
  function Reach(payload: Bytes, chunkSize: nat, m: nat): (n: nat)
    ensures n <= |payload|
  {
    Min(m * chunkSize, |payload|)
  }

  lemma NextSlice(payload: Bytes, chunkSize: nat, m: nat)
    ensures ChunkAt(payload, chunkSize, m) == payload[Reach(payload, chunkSize, m)..][..|ChunkAt(payload, chunkSize, m)|]
    ensures Reach(payload, chunkSize, m + 1) == Reach(payload, chunkSize, m) + |ChunkAt(payload, chunkSize, m)|
    ensures payload[..Reach(payload, chunkSize, m + 1)]
         == payload[..Reach(payload, chunkSize, m)] + ChunkAt(payload, chunkSize, m)
  {
    assert (m + 1) * chunkSize == m * chunkSize + chunkSize;
  }

  function Chunks(payload: Bytes, chunkSize: nat, m: nat): (s: seq<Bytes>)
    ensures |s| == m
    ensures forall k :: 0 <= k < m ==> s[k] == ChunkAt(payload, chunkSize, k)
  {
    if m == 0 then [] else Chunks(payload, chunkSize, m - 1) + [ChunkAt(payload, chunkSize, m - 1)]
  }

  lemma {:induction false} ChunksReach(payload: Bytes, chunkSize: nat, m: nat)
    ensures Join(Chunks(payload, chunkSize, m)) == payload[..Reach(payload, chunkSize, m)]
  {
    if m > 0 {
      ChunksReach(payload, chunkSize, m - 1);
      JoinAppend(Chunks(payload, chunkSize, m - 1), [ChunkAt(payload, chunkSize, m - 1)]);
      assert Join([ChunkAt(payload, chunkSize, m - 1)]) == ChunkAt(payload, chunkSize, m - 1);
      NextSlice(payload, chunkSize, m - 1);
    }
  }

  /** The slices are a partition of the payload: they join back to it, every one but the last is full, none is
      oversized, and only the empty payload has an empty slice. */
  lemma Partition(payload: Bytes, chunkSize: nat)
    requires chunkSize > 0
    ensures var t := FragmentCount(|payload|, chunkSize);
            && Join(Chunks(payload, chunkSize, t)) == payload
            && (forall k: nat :: k < t - 1 ==> |ChunkAt(payload, chunkSize, k)| == chunkSize)
            && |ChunkAt(payload, chunkSize, t - 1)| <= chunkSize
            && (payload == [] <==> ChunkAt(payload, chunkSize, t - 1) == [])
  {
    var t := FragmentCount(|payload|, chunkSize);
    Ceiling(|payload|, chunkSize);
    ChunksReach(payload, chunkSize, t);
    assert payload[..|payload|] == payload;
    LastSlice(payload, chunkSize, t - 1);
    forall k: nat | k < t - 1
      ensures |ChunkAt(payload, chunkSize, k)| == chunkSize
    {
      Multiples(k, t - 1, chunkSize);
    }
  }

  lemma {:induction false} Multiples(a: nat, b: nat, k: nat)
    requires a < b
    ensures a * k + k <= b * k
  {
    assert b * k == (b - 1) * k + k;
    if a < b - 1 {
      Multiples(a, b - 1, k);
    }
  }

  lemma LastSlice(payload: Bytes, chunkSize: nat, m: nat)
    requires |payload| <= (m + 1) * chunkSize
    requires payload == [] || m * chunkSize < |payload|
    ensures |ChunkAt(payload, chunkSize, m)| <= chunkSize
    ensures payload == [] <==> ChunkAt(payload, chunkSize, m) == []
  {
    assert (m + 1) * chunkSize == m * chunkSize + chunkSize;
  }

  // ---------------------------------------------------------------------------
  // Fragments
  // ---------------------------------------------------------------------------

  /** Numbered chunks on one stream id, however they were cut. */
  datatype Transfer = Transfer(chunks: seq<Bytes>, streamId: U32) {
    predicate Valid() {
      0 < |chunks| <= MAX_FRAGMENTS && |Join(chunks)| <= MAX_PAYLOAD
    }

    function Header(sequence: nat): FragHeader
      requires Valid() && sequence < |chunks|
    {
      FragHeader(streamId % 0x1_0000, sequence, |chunks|, streamId)
    }

    /** The payload of fragment frame `sequence`. */
    function Fragment(sequence: nat): Bytes
      requires Valid() && sequence < |chunks|
    {
      PackFragHeader(Header(sequence)) + chunks[sequence]
    }
  }

  lemma FragmentParses(t: Transfer, sequence: nat)
    requires t.Valid() && sequence < |t.chunks|
    ensures ParseFragHeader(t.Fragment(sequence)) == Some(t.Header(sequence))
    ensures t.Fragment(sequence)[FRAG_HEADER_SIZE..] == t.chunks[sequence]
  {
    ParsePackedFragHeader(t.Header(sequence), t.chunks[sequence]);
  }

  /** The bytes of a fragment: the low half of the stream id, its number, how many there are, the stream id, and its data. */
  lemma FragmentBytes(t: Transfer, k: nat)
    requires t.Valid() && k < |t.chunks|
    ensures var s := t.Fragment(k);
            && |s| == 10 + |t.chunks[k]| && Number(s[..2]) == t.streamId % 0x1_0000 && Number(s[2..4]) == k
            && Number(s[4..6]) == |t.chunks| && Number(s[6..10]) == t.streamId && s[10..] == t.chunks[k]
  {
    hide PackFragHeader, Number;
    var s, h := t.Fragment(k), PackFragHeader(t.Header(k));
    FragHeaderBytes(t.Header(k));
    assert s[..2] == h[..2] && s[2..4] == h[2..4] && s[4..6] == h[4..6] && s[6..10] == h[6..10];
  }

  /** The transfer `send_fragmented` makes of a payload. */
  function Cut(payload: Bytes, chunkSize: int, streamId: U32): Transfer
    requires chunkSize > 0
  {
    Transfer(Chunks(payload, chunkSize, FragmentCount(|payload|, chunkSize)), streamId)
  }

  /** Every accepted call makes a transfer of the whole payload whose fragments fit in frames. */
  lemma CutIsValid(payload: Bytes, chunkSize: int, streamId: U32)
    requires |payload| <= MAX_PAYLOAD && 0 < chunkSize <= MAX_PAYLOAD - FRAG_HEADER_SIZE
    requires FragmentCount(|payload|, chunkSize) <= MAX_FRAGMENTS
    ensures var t := Cut(payload, chunkSize, streamId);
            && t.Valid() && Join(t.chunks) == payload
            && forall k: nat :: k < |t.chunks| ==> |t.Fragment(k)| <= MAX_PAYLOAD
  {
    Partition(payload, chunkSize);
    var t := Cut(payload, chunkSize, streamId);
    forall k: nat | k < |t.chunks|
      ensures |t.chunks[k]| <= chunkSize
    {
      assert k < |t.chunks| - 1 || k == |t.chunks| - 1;
    }
  }

  // ---------------------------------------------------------------------------
  // Stream ids
  // ---------------------------------------------------------------------------

  /** `(id + 1) & 0xFFFFFFFF or 1` */
  function NextStreamId(id: U32): U32 {
    var next := (id + 1) % 0x1_0000_0000;
    if next == 0 then 1 else next
  }

  /** The id the n-th call after the one that used `id` gets. */
  function StreamIdAfter(id: U32, n: nat): U32 {
    if n == 0 then id else NextStreamId(StreamIdAfter(id, n - 1))
  }

  lemma {:induction false} StreamIdClosedForm(id: U32, n: nat)
    requires id != 0
    ensures StreamIdAfter(id, n) == (id - 1 + n) % 0xFFFF_FFFF + 1
  {
    if n > 0 {
      StreamIdClosedForm(id, n - 1);
      NextInCycle(id - 1 + n - 1);
    }
  }

  lemma NextInCycle(m: nat)
    ensures NextStreamId(m % 0xFFFF_FFFF + 1) == (m + 1) % 0xFFFF_FFFF + 1
  {
  }

  lemma CycleApart(m: nat, d: nat)
    ensures m % 0xFFFF_FFFF == (m + d) % 0xFFFF_FFFF <==> d % 0xFFFF_FFFF == 0
  {
  }

  /** Ids are never 0, and two calls share one exactly when a multiple of 2^32 - 1 calls lies between them: within
      that many consecutive calls all are distinct. */
  lemma StreamIdsDistinct(id: U32, i: nat, d: nat)
    requires id != 0
    ensures StreamIdAfter(id, i) != 0
    ensures StreamIdAfter(id, i) == StreamIdAfter(id, i + d) <==> d % 0xFFFF_FFFF == 0
    ensures 0 < d < 0xFFFF_FFFF ==> StreamIdAfter(id, i) != StreamIdAfter(id, i + d)
  {
    StreamIdClosedForm(id, i);
    StreamIdClosedForm(id, i + d);
    CycleApart(id - 1 + i, d);
  }
}
