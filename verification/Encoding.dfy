/**
 The byte encodings on which authentication rests: little-endian integers, the
 associated data of server records, of the key verifier and of client cache
 entries, and the preimage of a cache file name.
 */
module Encoding {
  import opened Prelude

  const TWO_32: nat := 0x1_0000_0000
  const TWO_64: nat := 0x1_0000_0000_0000_0000

  // ---- little-endian integers ----

  /** The low `width` octets of `n`, least significant first (`as u32` keeps the low 32 bits). */
  function ToLe(n: nat, width: nat): (r: Bytes)
    ensures |r| == width
  {
    if width == 0 then [] else [n % 256] + ToLe(n / 256, width - 1)
  }

  function FromLe(b: Bytes): nat {
    if b == [] then 0 else b[0] + 256 * FromLe(b[1..])
  }

  function Pow256(width: nat): (r: nat)
    ensures r > 0
  {
    if width == 0 then 1 else 256 * Pow256(width - 1)
  }

  /** Decoding recovers every integer that fits the width. */
  lemma {:induction false} LeRoundTrip(n: nat, width: nat)
    requires n < Pow256(width)
    ensures FromLe(ToLe(n, width)) == n
  {
    if width > 0 {
      LeRoundTrip(n / 256, width - 1);
      assert ToLe(n, width)[1..] == ToLe(n / 256, width - 1);
    }
  }

  lemma Widths()
    ensures Pow256(4) == TWO_32 && Pow256(8) == TWO_64
  {
    assert Pow256(1) == 256 && Pow256(2) == 0x1_0000 && Pow256(3) == 0x100_0000 && Pow256(4) == TWO_32;
    assert Pow256(5) == 256 * TWO_32 && Pow256(6) == 0x1_0000 * TWO_32;
    assert Pow256(7) == 0x100_0000 * TWO_32;
  }

  function U32Le(n: nat): (r: Bytes)
    ensures |r| == 4
  {
    ToLe(n, 4)
  }

  /** `le_to_u32`: anything but four octets is corruption. */
  function LeToU32(b: Bytes): (r: Option<nat>) {
    if |b| == 4 then Some(FromLe(b)) else None
  }

  lemma U32RoundTrip(n: nat)
    requires n < TWO_32
    ensures LeToU32(U32Le(n)) == Some(n)
  {
    LeRoundTrip(n, 4);
    Widths();
  }

  lemma U32Injective(a: nat, b: nat)
    requires a < TWO_32 && b < TWO_32 && U32Le(a) == U32Le(b)
    ensures a == b
  {
    U32RoundTrip(a);
    U32RoundTrip(b);
  }

  lemma U64Injective(a: nat, b: nat)
    requires a < TWO_64 && b < TWO_64 && ToLe(a, 8) == ToLe(b, 8)
    ensures a == b
  {
    LeRoundTrip(a, 8);
    LeRoundTrip(b, 8);
    Widths();
  }

  // ---- length-prefixed fields ----

  function Prefixed(field: Bytes): (r: Bytes)
    ensures |r| == 4 + |field|
  {
    U32Le(|field|) + field
  }

  /** A length-prefixed field can be split off the front of any longer string in one way only. */
  lemma PrefixedUnique(a: Bytes, restA: Bytes, b: Bytes, restB: Bytes)
    requires |a| < TWO_32 && |b| < TWO_32
    requires Prefixed(a) + restA == Prefixed(b) + restB
    ensures a == b && restA == restB
  {
    var x, y := Prefixed(a) + restA, Prefixed(b) + restB;
    assert x[..4] == U32Le(|a|) && y[..4] == U32Le(|b|);
    U32Injective(|a|, |b|);
    assert x[4..4 + |a|] == a && y[4..4 + |b|] == b;
    assert x[4 + |a|..] == restA && y[4 + |b|..] == restB;
  }

  // ---- record associated data ----

  /** `aad_bytes`. */
  function Aad(project: Bytes, key: Bytes): Bytes {
    Prefixed(project) + Prefixed(key)
  }

  lemma AadInjective(p: Bytes, k: Bytes, p': Bytes, k': Bytes)
    requires |p| < TWO_32 && |k| < TWO_32 && |p'| < TWO_32 && |k'| < TWO_32
    requires Aad(p, k) == Aad(p', k')
    ensures p == p' && k == k'
  {
    PrefixedUnique(p, Prefixed(k), p', Prefixed(k'));
    assert Prefixed(k) + [] == Prefixed(k) && Prefixed(k') + [] == Prefixed(k');
    PrefixedUnique(k, [], k', []);
  }

  function Zeros(n: nat): (r: Bytes)
    ensures |r| == n && forall i :: 0 <= i < n ==> r[i] == 0
  {
    seq(n, _ => 0)
  }

  /** What stands where: each field behind its own length. */
  lemma AadLayout(project: Bytes, key: Bytes)
    requires |project| < TWO_32 && |key| < TWO_32
    ensures var aad, n := Aad(project, key), 4 + |project|;
            && |aad| == n + 4 + |key|
            && LeToU32(aad[..4]) == Some(|project|) && aad[4..n] == project
            && LeToU32(aad[n..n + 4]) == Some(|key|) && aad[n + 4..] == key
  {
    var aad, n := Aad(project, key), 4 + |project|;
    U32RoundTrip(|project|);
    U32RoundTrip(|key|);
    assert aad[..4] == U32Le(|project|) && aad[n..n + 4] == U32Le(|key|);
  }

  /** The bound of 2^32 octets is sharp: the length cast makes two longer records collide. */
  lemma AadCollidesAtTwo32()
    ensures Aad(Zeros(TWO_32), []) == Aad([], Zeros(TWO_32))
    ensures Zeros(TWO_32) != []
  {
    assert ToLe(TWO_32, 4) == Zeros(4) by {
      assert ToLe(256, 1) == Zeros(1) && ToLe(0x1_0000, 2) == Zeros(2) && ToLe(0x100_0000, 3) == Zeros(3);
    }
    assert ToLe(0, 4) == Zeros(4) by {
      assert ToLe(0, 1) == Zeros(1) && ToLe(0, 2) == Zeros(2) && ToLe(0, 3) == Zeros(3);
    }
    assert Aad(Zeros(TWO_32), []) == Zeros(TWO_32 + 8);
    assert Aad([], Zeros(TWO_32)) == Zeros(TWO_32 + 8);
  }

  /** Records whose fields are shorter than `n` octets have encodings of their own. */
  ghost predicate InjectiveBelow(n: nat) {
    forall p, k, p', k' ::
      |p| < n && |k| < n && |p'| < n && |k'| < n && Aad(p, k) == Aad(p', k') ==> p == p' && k == k'
  }

  /** The bound on field lengths under which the encoding is injective, exactly. */
  lemma AadInjectiveExactly(n: nat)
    ensures InjectiveBelow(n) <==> n <= TWO_32
  {
    if n <= TWO_32 {
      forall p, k, p', k' | |p| < n && |k| < n && |p'| < n && |k'| < n && Aad(p, k) == Aad(p', k')
        ensures p == p' && k == k'
      {
        AadInjective(p, k, p', k');
      }
    } else {
      AadCollidesAtTwo32();
      assert Aad(Zeros(TWO_32), []) == Aad([], Zeros(TWO_32));
    }
  }

  /** `aad_bytes` as the program runs it: four appends to a growing buffer. */
  method AadBytes(project: Bytes, key: Bytes) returns (v: Bytes)
    ensures v == Aad(project, key)
    ensures |v| == 8 + |project| + |key|
  {
    v := [];
    v := v + U32Le(|project|);
    v := v + project;
    v := v + U32Le(|key|);
    v := v + key;
  }

  // ---- reserved verifier record ----

  const RESERVED_PROJECT: Bytes := Ascii("\0meta")
  const RESERVED_KEY: Bytes := Ascii("\0verifier")

  /** `verifier_aad`. */
  function VerifierAad(): Bytes {
    Aad(RESERVED_PROJECT, RESERVED_KEY)
  }

  /** The verifier's record collides with no record whose project name avoids the NUL octet. */
  lemma VerifierAadReserved(p: Bytes, k: Bytes)
    requires |p| < TWO_32 && |k| < TWO_32 && 0 !in p
    ensures Aad(p, k) != VerifierAad()
  {
    assert RESERVED_PROJECT[0] == 0;
    if Aad(p, k) == VerifierAad() {
      AadInjective(p, k, RESERVED_PROJECT, RESERVED_KEY);
    }
  }

  // ---- client cache entries ----

  const HASH_LEN: nat := 32
  const CACHE_AAD_PREFIX: Bytes := Ascii("secrets-manager-client-cache-v2")

  /** `CacheStore::aad`. */
  function CacheAad(url: Bytes, tokenHash: Bytes, project: Bytes, createdAt: nat): Bytes {
    CACHE_AAD_PREFIX + (Prefixed(url) + (tokenHash + (Prefixed(project) + ToLe(createdAt, 8))))
  }

  lemma CacheAadInjective(u: Bytes, h: Bytes, p: Bytes, t: nat, u': Bytes, h': Bytes, p': Bytes, t': nat)
    requires |u| < TWO_32 && |p| < TWO_32 && |h| == HASH_LEN && t < TWO_64
    requires |u'| < TWO_32 && |p'| < TWO_32 && |h'| == HASH_LEN && t' < TWO_64
    requires CacheAad(u, h, p, t) == CacheAad(u', h', p', t')
    ensures u == u' && h == h' && p == p' && t == t'
  {
    var tail, tail' := Prefixed(p) + ToLe(t, 8), Prefixed(p') + ToLe(t', 8);
    var n := |CACHE_AAD_PREFIX|;
    assert CacheAad(u, h, p, t)[n..] == Prefixed(u) + (h + tail);
    assert CacheAad(u', h', p', t')[n..] == Prefixed(u') + (h' + tail');
    PrefixedUnique(u, h + tail, u', h' + tail');
    assert (h + tail)[..HASH_LEN] == h && (h' + tail')[..HASH_LEN] == h';
    assert (h + tail)[HASH_LEN..] == tail && (h' + tail')[HASH_LEN..] == tail';
    PrefixedUnique(p, ToLe(t, 8), p', ToLe(t', 8));
    U64Injective(t, t');
  }

  /** `CacheStore::aad` as the program runs it. */
  method CacheAadBytes(url: Bytes, tokenHash: Bytes, project: Bytes, createdAt: nat) returns (aad: Bytes)
    ensures aad == CacheAad(url, tokenHash, project, createdAt)
    ensures |aad| == |CACHE_AAD_PREFIX| + |url| + |tokenHash| + |project| + 16
  {
    aad := CACHE_AAD_PREFIX;
    aad := aad + U32Le(|url|);
    aad := aad + url;
    aad := aad + tokenHash;
    aad := aad + U32Le(|project|);
    aad := aad + project;
    aad := aad + ToLe(createdAt, 8);
  }

  /** What `cache_path` hashes: two NUL-separated fields and the project. */
  function PathPreimage(url: Bytes, tokenHash: Bytes, project: Bytes): Bytes {
    url + ([0] + (tokenHash + ([0] + project)))
  }

  /** File names separate entries as long as the server URL has no NUL octet. */
  lemma PathPreimageInjective(u: Bytes, h: Bytes, p: Bytes, u': Bytes, h': Bytes, p': Bytes)
    requires 0 !in u && 0 !in u' && |h| == HASH_LEN && |h'| == HASH_LEN
    requires PathPreimage(u, h, p) == PathPreimage(u', h', p')
    ensures u == u' && h == h' && p == p'
  {
    var x := PathPreimage(u, h, p);
    var x' := PathPreimage(u', h', p');
    assert x[|u|] == 0 && x'[|u'|] == 0;
    assert forall i :: 0 <= i < |u| ==> x[i] == u[i];
    assert forall i :: 0 <= i < |u'| ==> x'[i] == u'[i];
    assert |u| == |u'|;
    assert x[..|u|] == u && x'[..|u|] == u';
    assert x[|u| + 1..][..HASH_LEN] == h && x'[|u| + 1..][..HASH_LEN] == h';
    assert x[|u| + 2 + HASH_LEN..] == p && x'[|u| + 2 + HASH_LEN..] == p';
  }
}
