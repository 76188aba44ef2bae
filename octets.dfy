/** Byte strings, big-endian unsigned integers (struct's `>I` and `>B`),
    Python slicing of bytes, and UTF-8 encoding of text (`str.encode()`). */
module Octets {

  /** One octet; an integer subset keeps conversions to and from int cheap
      for the verifier. */
  newtype byte = x: int | 0 <= x < 256

  type Bytes = seq<byte>

  /** 256^k, the number of values k big-endian bytes can hold. */
  function Pow256(k: nat): (p: nat)
    ensures p >= 1
  {
    if k == 0 then 1 else 256 * Pow256(k - 1)
  }

  const U32_LIMIT: nat := 0x1_0000_0000

  lemma Pow256Four()
    ensures Pow256(4) == U32_LIMIT
  {
    assert Pow256(1) == 256;
    assert Pow256(2) == 65536;
    assert Pow256(3) == 16777216;
  }

  /** The k-byte big-endian encoding of n, most significant byte first. */
  function ToBE(n: nat, k: nat): (r: Bytes)
    requires n < Pow256(k)
    ensures |r| == k
  {
    if k == 0 then [] else ToBE(n / 256, k - 1) + [(n % 256) as byte]
  }

  /** The unsigned integer whose big-endian encoding is s. */
  function FromBE(s: Bytes): (n: nat)
    ensures n < Pow256(|s|)
  {
    if s == [] then 0 else FromBE(s[..|s| - 1]) * 256 + s[|s| - 1] as int
  }

  lemma {:induction false} FromBEToBE(n: nat, k: nat)
    requires n < Pow256(k)
    ensures FromBE(ToBE(n, k)) == n
  {
    if k > 0 {
      var q, b := n / 256, n % 256;
      assert n == q * 256 + b;
      var r := ToBE(n, k);
      assert r == ToBE(q, k - 1) + [b as byte];
      assert r[..k - 1] == ToBE(q, k - 1);
      FromBEToBE(q, k - 1);
      assert r[k - 1] as int == b;
      assert |r| == k && r != [];
      assert FromBE(r) == FromBE(r[..|r| - 1]) * 256 + r[|r| - 1] as int;
    }
  }

  lemma {:induction false} ToBEFromBE(s: Bytes)
    ensures ToBE(FromBE(s), |s|) == s
  {
    if s != [] {
      var init, last := s[..|s| - 1], s[|s| - 1];
      ToBEFromBE(init);
      var n := FromBE(s);
      assert n / 256 == FromBE(init);
      assert (n % 256) as byte == last;
      assert s == init + [last];
    }
  }

  /** struct's `>I`: a 4-byte big-endian unsigned integer. */
  function U32(n: nat): (r: Bytes)
    requires n < U32_LIMIT
    ensures |r| == 4
  {
    Pow256Four();
    ToBE(n, 4)
  }

  lemma U32RoundTrip(n: nat)
    requires n < U32_LIMIT
    ensures FromBE(U32(n)) == n
  {
    Pow256Four();
    FromBEToBE(n, 4);
  }

  lemma U32OfDecoded(s: Bytes)
    requires |s| == 4
    ensures FromBE(s) < U32_LIMIT && U32(FromBE(s)) == s
  {
    Pow256Four();
    ToBEFromBE(s);
  }

  function Min(a: int, b: int): int { if a <= b then a else b }
  function Max(a: int, b: int): int { if a <= b then b else a }

  /** Python's `s[a:b]` for non-negative a and b: both ends are clamped to
      the length, and an end before the start gives the empty string. */
  function Slice(s: Bytes, a: nat, b: nat): (r: Bytes)
    ensures |r| == Max(0, Min(b, |s|) - Min(a, |s|))
    ensures a <= b <= |s| ==> r == s[a..b]
  {
    var lo := Min(a, |s|);
    var hi := Max(lo, Min(b, |s|));
    s[lo..hi]
  }

  /** n zero bytes. */
  function Zeros(n: nat): (r: Bytes)
    ensures |r| == n && forall i | 0 <= i < n :: r[i] == 0
  {
    seq(n, _ => 0)
  }

  /** struct's `ns` field: the bytes truncated or zero-padded to n. */
  function PadTo(s: Bytes, n: nat): (r: Bytes)
    ensures |r| == n
    ensures |s| >= n ==> r == s[..n]
    ensures |s| <= n ==> r[..|s|] == s && r[|s|..] == Zeros(n - |s|)
  {
    if |s| >= n then s[..n] else s + Zeros(n - |s|)
  }

  /** UTF-8 encoding of one Unicode scalar value. */
  function CharUtf8(c: char): (r: Bytes)
    ensures 1 <= |r| <= 4
    ensures (c as int < 0x80) <==> |r| == 1
    ensures c as int < 0x80 ==> r[0] as int == c as int
  {
    var n := c as int;
    assert n < 0x110000;
    if n < 0x80 then [n as byte]
    else if n < 0x800 then [(0xC0 + n / 0x40) as byte, (0x80 + n % 0x40) as byte]
    else if n < 0x10000 then
      [(0xE0 + n / 0x1000) as byte, (0x80 + (n / 0x40) % 0x40) as byte, (0x80 + n % 0x40) as byte]
    else
      [(0xF0 + n / 0x40000) as byte, (0x80 + (n / 0x1000) % 0x40) as byte,
       (0x80 + (n / 0x40) % 0x40) as byte, (0x80 + n % 0x40) as byte]
  }

  /** Python's `str.encode()`, which encodes as UTF-8. */
  function Utf8(s: string): Bytes
  {
    if s == [] then [] else Utf8(s[..|s| - 1]) + CharUtf8(s[|s| - 1])
  }

  predicate IsAscii(s: string)
  {
    forall i | 0 <= i < |s| :: s[i] as int < 0x80
  }

  /** An ASCII string encodes to one byte per character, each its code. */
  lemma {:induction false} Utf8OfAscii(s: string)
    requires IsAscii(s)
    ensures |Utf8(s)| == |s|
    ensures forall i | 0 <= i < |s| :: Utf8(s)[i] as int == s[i] as int
  {
    if s != [] {
      var init := s[..|s| - 1];
      assert IsAscii(init) by {
        forall i | 0 <= i < |init| ensures init[i] as int < 0x80 { assert init[i] == s[i]; }
      }
      Utf8OfAscii(init);
      assert |CharUtf8(s[|s| - 1])| == 1;
    }
  }
}
