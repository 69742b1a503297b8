/** HKDF-SHA256 of vynkor/framing.py, after sections 2.2 and 2.3 of RFC 5869. */
module Hkdf {
  import opened Wrappers
  import opened Octets
  import opened Framing

  const HASH_LEN := 32
  const MAX_BLOCKS := 255

  /** T(i) of section 2.3: T(0) is empty, T(i) = HMAC(PRK, T(i-1) | info | i). */
  function Block(p: Primitives, prk: Bytes, info: Bytes, i: nat): (t: Bytes)
    requires i <= MAX_BLOCKS
    ensures |t| == if i == 0 then 0 else HASH_LEN
  {
    if i == 0 then [] else p.hmac(prk, Block(p, prk, info, i - 1) + info + [i])
  }

  /** T = T(1) | T(2) | ... | T(n). */
  function Blocks(p: Primitives, prk: Bytes, info: Bytes, n: nat): (t: Bytes)
    requires n <= MAX_BLOCKS
    ensures |t| == HASH_LEN * n
  {
    if n == 0 then [] else Blocks(p, prk, info, n - 1) + Block(p, prk, info, n)
  }

  lemma {:induction false} BlocksPrefix(p: Primitives, prk: Bytes, info: Bytes, m: nat, n: nat)
    requires m <= n <= MAX_BLOCKS
    ensures Blocks(p, prk, info, m) == Blocks(p, prk, info, n)[..HASH_LEN * m]
  {
    if m < n {
      BlocksPrefix(p, prk, info, m, n - 1);
    }
  }

  /** The first L octets of T(1) | ... | T(N), N = ceil(L / HashLen). */
  function Okm(p: Primitives, prk: Bytes, info: Bytes, length: nat): (okm: Bytes)
    requires length <= HASH_LEN * MAX_BLOCKS
    ensures |okm| == length
  {
    Blocks(p, prk, info, (length + HASH_LEN - 1) / HASH_LEN)[..length]
  }

  /** Asking for less key material gives a prefix of what asking for more gives. */
  lemma OkmPrefix(p: Primitives, prk: Bytes, info: Bytes, short: nat, long: nat)
    requires short <= long <= HASH_LEN * MAX_BLOCKS
    ensures Okm(p, prk, info, short) == Okm(p, prk, info, long)[..short]
  {
    BlocksPrefix(p, prk, info, (short + HASH_LEN - 1) / HASH_LEN, (long + HASH_LEN - 1) / HASH_LEN);
  }

  /** Each 32-byte block of the output is the HMAC of the block before it, the info and its own number. */
  lemma {:induction false} OkmChain(p: Primitives, prk: Bytes, info: Bytes, n: nat, i: nat)
    requires 1 <= i <= n <= 255
    ensures var okm := Okm(p, prk, info, 32 * n);
            okm[32 * i - 32..32 * i] == p.hmac(prk, (if i == 1 then [] else okm[32 * i - 64..32 * i - 32]) + info + [i])
  {
    assert (32 * n + HASH_LEN - 1) / HASH_LEN == n;
    assert Okm(p, prk, info, 32 * n) == Blocks(p, prk, info, n);
    BlockAt(p, prk, info, n, i);
    if i > 1 {
      BlockAt(p, prk, info, n, i - 1);
    }
  }

  lemma {:induction false} BlockAt(p: Primitives, prk: Bytes, info: Bytes, n: nat, i: nat)
    requires 1 <= i <= n <= MAX_BLOCKS
    ensures Blocks(p, prk, info, n)[HASH_LEN * i - HASH_LEN..HASH_LEN * i] == Block(p, prk, info, i)
  {
    if i < n {
      BlockAt(p, prk, info, n - 1, i);
    }
  }

  datatype HkdfError = CounterOutOfByteRange

  /** `_hkdf_expand`. A length that is not positive runs no round; past 255 rounds `bytes([counter])` raises. */
  method HkdfExpand(p: Primitives, prk: Bytes, info: Bytes, length: int) returns (r: Result<Bytes, HkdfError>)
    ensures r.Ok? <==> length <= HASH_LEN * MAX_BLOCKS
    ensures r.Ok? ==> r.value == Okm(p, prk, info, if length < 0 then 0 else length)
  {
    var t: Bytes := [];
    var okm: Bytes := [];
    var counter: nat := 1;
    while |okm| < length
      invariant 1 <= counter <= MAX_BLOCKS + 1
      invariant t == Block(p, prk, info, counter - 1)
      invariant okm == Blocks(p, prk, info, counter - 1)
      invariant counter > 1 ==> |okm| - HASH_LEN < length
    {
      if counter > MAX_BLOCKS {
        return Err(CounterOutOfByteRange);
      }
      t := p.hmac(prk, t + info + [counter]);
      okm := okm + t;
      counter := counter + 1;
    }
    if length < 0 {
      return Ok([]);
    }
    return Ok(okm[..length]);
  }

  /** b"vynkor-frame-mac-v1|" */
  const INFO_PREFIX: Bytes := [118, 121, 110, 107, 111, 114, 45, 102, 114, 97, 109, 101, 45, 109, 97, 99, 45, 118, 49, 124]

  lemma InfoPrefixSpells()
    ensures var text := "vynkor-frame-mac-v1|";
            |INFO_PREFIX| == |text| && forall i :: 0 <= i < |text| ==> INFO_PREFIX[i] == text[i] as int
  {
  }

  /** `derive_session_key`: extract with the nonce as salt (section 2.2), then one block of expansion. */
  method DeriveSessionKey(p: Primitives, secret: Bytes, nonce: Bytes, pluginId: Bytes) returns (key: Bytes)
    ensures key == p.hmac(p.hmac(nonce, secret), INFO_PREFIX + pluginId + [1])
  {
    var prk := p.hmac(nonce, secret);
    var info := INFO_PREFIX + pluginId;
    var r := HkdfExpand(p, prk, info, 32);
    key := r.value;
    assert [] + info + [1] == info + [1];
    assert key == Blocks(p, prk, info, 1) == [] + Block(p, prk, info, 1);
    assert Block(p, prk, info, 0) == [];
    assert Block(p, prk, info, 1) == p.hmac(prk, Block(p, prk, info, 0) + info + [1]);
  }
}
