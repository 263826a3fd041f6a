/** Byte-addressed memory with little-endian size_t words laid over the bytes: encoding, decoding,
    and what a store leaves unchanged. The allocator reads and writes its chunk headers through it. */
module Memory {
  import opened Words

  type Byte = b: int | 0 <= b < 256

  function Pow256(n: nat): nat { if n == 0 then 1 else 256 * Pow256(n - 1) }

  function Encode(v: nat, n: nat): (s: seq<Byte>)
    ensures |s| == n
  {
    if n == 0 then [] else [v % 256] + Encode(v / 256, n - 1)
  }

  function Decode(s: seq<Byte>): nat
  {
    if s == [] then 0 else s[0] + 256 * Decode(s[1..])
  }

  /** The size_t stored at address a. */
  function Load(m: seq<Byte>, a: nat): nat
    requires a + SIZE_T <= |m|
  {
    Decode(m[a..a + SIZE_T])
  }

  function StoreBytes(m: seq<Byte>, a: nat, s: seq<Byte>): (m': seq<Byte>)
    requires a + |s| <= |m|
    ensures |m'| == |m|
  {
    m[..a] + s + m[a + |s|..]
  }

  function Store(m: seq<Byte>, a: nat, v: nat): (m': seq<Byte>)
    requires a + SIZE_T <= |m|
    ensures |m'| == |m|
  {
    StoreBytes(m, a, Encode(v, SIZE_T))
  }

  lemma {:induction false} DecodeEncode(v: nat, n: nat)
    requires v < Pow256(n)
    ensures Decode(Encode(v, n)) == v
  {
    if n > 0 {
      DecodeEncode(v / 256, n - 1);
      assert Encode(v, n)[1..] == Encode(v / 256, n - 1);
    }
  }

  lemma {:induction false} EncodeDecode(s: seq<Byte>)
    ensures Encode(Decode(s), |s|) == s
  {
    if s != [] {
      EncodeDecode(s[1..]);
      assert Decode(s) % 256 == s[0] && Decode(s) / 256 == Decode(s[1..]);
    }
  }

  lemma {:induction false} DecodeBound(s: seq<Byte>)
    ensures Decode(s) < Pow256(|s|)
  {
    if s != [] { DecodeBound(s[1..]); }
  }

  lemma Pow256OfWord()
    ensures Pow256(SIZE_T) == MODULUS
  {
    assert Pow256(4) == 0x1_0000_0000;
    assert Pow256(8) == 256 * 256 * 256 * 256 * Pow256(4);
  }

  lemma LoadBound(m: seq<Byte>, a: nat)
    requires a + SIZE_T <= |m|
    ensures Load(m, a) < MODULUS
  {
    DecodeBound(m[a..a + SIZE_T]);
    Pow256OfWord();
  }

  lemma LoadStore(m: seq<Byte>, a: nat, v: nat)
    requires a + SIZE_T <= |m| && v < MODULUS
    ensures Load(Store(m, a, v), a) == v
  {
    Pow256OfWord();
    DecodeEncode(v, SIZE_T);
    assert Store(m, a, v)[a..a + SIZE_T] == Encode(v, SIZE_T);
  }

  lemma StoreLoad(m: seq<Byte>, a: nat)
    requires a + SIZE_T <= |m|
    ensures Store(m, a, Load(m, a)) == m
  {
    EncodeDecode(m[a..a + SIZE_T]);
  }

  /** Bytes outside the stored range are untouched. */
  lemma StoreElsewhere(m: seq<Byte>, a: nat, s: seq<Byte>, lo: nat, hi: nat)
    requires a + |s| <= |m| && lo <= hi <= |m|
    requires hi <= a || a + |s| <= lo
    ensures StoreBytes(m, a, s)[lo..hi] == m[lo..hi]
  {
  }

  /** Memories that agree on a range agree on every smaller range inside it. */
  lemma SubRange(m: seq<Byte>, m': seq<Byte>, a: nat, b: nat, lo: nat, hi: nat)
    requires |m| == |m'| && a <= lo <= hi <= b <= |m|
    requires m[a..b] == m'[a..b]
    ensures m[lo..hi] == m'[lo..hi]
  {
    forall i | lo <= i < hi
      ensures m[i] == m'[i]
    {
      assert m[a..b][i - a] == m'[a..b][i - a];
    }
  }
}
