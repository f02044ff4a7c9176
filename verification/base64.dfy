/**
 * Base64 encoding of byte strings, as Node's `Buffer.toString('base64')`
 * produces it (the standard alphabet of RFC 4648 section 4, with `=`
 * padding), the character rewriting the share route applies to it, and an
 * independent reference: the URL-safe alphabet of RFC 4648 section 5
 * without padding.
 */
module Base64 {

  newtype byte = x: int | 0 <= x < 256

  /** A 6-bit group, the index of one alphabet character. */
  type sextet = x: int | 0 <= x < 64

  /** The standard alphabet (RFC 4648 section 4, table 1). */
  function StdChar(i: sextet): char {
    if i < 26 then ('A' as int + i) as char
    else if i < 52 then ('a' as int + (i - 26)) as char
    else if i < 62 then ('0' as int + (i - 52)) as char
    else if i == 62 then '+'
    else '/'
  }

  /** The URL- and filename-safe alphabet (RFC 4648 section 5, table 2). */
  function UrlChar(i: sextet): char {
    if i < 62 then StdChar(i)
    else if i == 62 then '-'
    else '_'
  }

  /** A character of the URL-safe alphabet: A-Z, a-z, 0-9, `-` or `_`. */
  predicate IsUrlSafe(c: char) {
    ('A' <= c <= 'Z') || ('a' <= c <= 'z') || ('0' <= c <= '9') || c == '-' || c == '_'
  }

  predicate AllUrlSafe(s: string) {
    forall k :: 0 <= k < |s| ==> IsUrlSafe(s[k])
  }

  /** The four sextets of one full group of three bytes, most significant bits first. */
  function FullGroup(b0: byte, b1: byte, b2: byte): (g: seq<sextet>)
    ensures |g| == 4
  {
    [(b0 / 4) as sextet, ((b0 % 4) * 16 + b1 / 16) as sextet,
     ((b1 % 16) * 4 + b2 / 64) as sextet, (b2 % 64) as sextet]
  }

  /**
   * The sextets of `b`, most significant bits first, without padding: a full
   * 3-byte group gives four, a final group of 2 bytes three and of 1 byte two.
   */
  function Sextets(b: seq<byte>): (q: seq<sextet>)
    ensures |q| == (4 * |b| + 2) / 3
    decreases |b|
  {
    if |b| == 0 then []
    else if |b| == 1 then
      [(b[0] / 4) as sextet, ((b[0] % 4) * 16) as sextet]
    else if |b| == 2 then
      [(b[0] / 4) as sextet, ((b[0] % 4) * 16 + b[1] / 16) as sextet,
       ((b[1] % 16) * 4) as sextet]
    else
      FullGroup(b[0], b[1], b[2]) + Sextets(b[3..])
  }

  /** The number of `=` characters that pad the encoding of `n` bytes. */
  function PadLength(n: nat): nat {
    if n % 3 == 0 then 0 else 3 - n % 3
  }

  /** The sextets and the padding together fill whole 4-character groups. */
  lemma PaddedLength(n: nat)
    ensures (4 * n + 2) / 3 + PadLength(n) == 4 * ((n + 2) / 3)
  {
    var q, r := n / 3, n % 3;
    assert n == 3 * q + r;
    assert 4 * n + 2 == 3 * (4 * q) + (4 * r + 2);
    assert n + 2 == 3 * q + (r + 2);
  }

  function MapStd(q: seq<sextet>): (s: string)
    ensures |s| == |q|
    ensures forall k :: 0 <= k < |q| ==> s[k] == StdChar(q[k])
  {
    if |q| == 0 then [] else [StdChar(q[0])] + MapStd(q[1..])
  }

  function MapUrl(q: seq<sextet>): (s: string)
    ensures |s| == |q|
    ensures forall k :: 0 <= k < |q| ==> s[k] == UrlChar(q[k])
  {
    if |q| == 0 then [] else [UrlChar(q[0])] + MapUrl(q[1..])
  }

  /** Standard padded base64, the output of `toString('base64')`. */
  function EncodeStd(b: seq<byte>): (s: string)
    ensures |s| == 4 * ((|b| + 2) / 3)
  {
    PaddedLength(|b|);
    MapStd(Sextets(b)) + seq(PadLength(|b|), _ => '=')
  }

  /** Reference definition: URL-safe base64 without padding. */
  function EncodeUrlUnpadded(b: seq<byte>): (s: string)
    ensures |s| == (4 * |b| + 2) / 3
    ensures AllUrlSafe(s)
  {
    MapUrl(Sextets(b))
  }

  /** `s.replace(/\+/g, '-').replace(/\//g, '_')`. */
  function ReplaceUnsafe(s: string): (r: string)
    ensures |r| == |s|
    ensures forall k :: 0 <= k < |s| ==>
      r[k] == (if s[k] == '+' then '-' else if s[k] == '/' then '_' else s[k])
  {
    if |s| == 0 then []
    else [if s[0] == '+' then '-' else if s[0] == '/' then '_' else s[0]] + ReplaceUnsafe(s[1..])
  }

  /** `s.replace(/=/g, '')`. */
  function RemovePadding(s: string): (r: string)
    ensures |r| <= |s|
    ensures forall k :: 0 <= k < |r| ==> r[k] != '='
  {
    if |s| == 0 then []
    else if s[0] == '=' then RemovePadding(s[1..])
    else [s[0]] + RemovePadding(s[1..])
  }

  /** RemovePadding leaves a string without `=` unchanged. */
  lemma {:induction false} RemovePaddingNoop(s: string)
    requires forall k :: 0 <= k < |s| ==> s[k] != '='
    ensures RemovePadding(s) == s
  {
    if |s| > 0 {
      RemovePaddingNoop(s[1..]);
    }
  }

  /** RemovePadding distributes over concatenation. */
  lemma {:induction false} RemovePaddingAppend(s: string, t: string)
    ensures RemovePadding(s + t) == RemovePadding(s) + RemovePadding(t)
  {
    if |s| == 0 {
      assert s + t == t;
    } else {
      assert (s + t)[1..] == s[1..] + t;
      RemovePaddingAppend(s[1..], t);
    }
  }

  /** A run of `=` vanishes entirely. */
  lemma {:induction false} RemovePaddingAllPad(n: nat)
    ensures RemovePadding(seq(n, _ => '=')) == []
  {
    if n > 0 {
      var p := seq(n, _ => '=');
      assert p[1..] == seq(n - 1, _ => '=');
      RemovePaddingAllPad(n - 1);
    }
  }

  /** Rewriting `+` and `/` turns a standard character into the URL-safe one. */
  lemma StdToUrl(i: sextet)
    ensures UrlChar(i) == (if StdChar(i) == '+' then '-' else if StdChar(i) == '/' then '_' else StdChar(i))
  {
  }

  /** The rewrite maps the standard alphabet onto the URL-safe one and keeps the padding. */
  lemma ReplaceStdIsUrl(q: seq<sextet>, pad: string)
    requires forall k :: 0 <= k < |pad| ==> pad[k] == '='
    ensures ReplaceUnsafe(MapStd(q) + pad) == MapUrl(q) + pad
  {
    var s, t := MapStd(q) + pad, MapUrl(q) + pad;
    var r := ReplaceUnsafe(s);
    forall k | 0 <= k < |s|
      ensures r[k] == t[k]
    {
      if k < |q| {
        assert s[k] == StdChar(q[k]) && t[k] == UrlChar(q[k]);
        StdToUrl(q[k]);
      } else {
        assert s[k] == pad[k - |q|] == t[k];
      }
    }
    assert |r| == |t|;
  }

  /**
   * The rewriting the share route applies to Node's standard base64 yields
   * exactly the unpadded URL-safe encoding of RFC 4648 section 5.
   */
  lemma RewriteIsUrlSafeEncoding(b: seq<byte>)
    ensures RemovePadding(ReplaceUnsafe(EncodeStd(b))) == EncodeUrlUnpadded(b)
  {
    var q := Sextets(b);
    var pad := seq(PadLength(|b|), _ => '=');
    ReplaceStdIsUrl(q, pad);
    RemovePaddingAppend(MapUrl(q), pad);
    RemovePaddingNoop(MapUrl(q));
    RemovePaddingAllPad(PadLength(|b|));
  }

  /** Encoding a whole number of 3-byte groups followed by more bytes splits. */
  lemma {:induction false} SextetsAppend(a: seq<byte>, b: seq<byte>)
    requires |a| % 3 == 0
    ensures Sextets(a + b) == Sextets(a) + Sextets(b)
    decreases |a|
  {
    if |a| == 0 {
      assert a + b == b;
    } else {
      assert (a + b)[3..] == a[3..] + b;
      SextetsAppend(a[3..], b);
    }
  }

  /**
   * Decodes one group of four sextets back into three bytes (the inverse of
   * the full-group case of Sextets).
   */
  function DecodeGroup(s0: sextet, s1: sextet, s2: sextet, s3: sextet): seq<byte> {
    [(s0 * 4 + s1 / 16) as byte, ((s1 % 16) * 16 + s2 / 4) as byte, ((s2 % 4) * 64 + s3) as byte]
  }

  /** Decodes the sextets of a whole number of 3-byte groups. */
  function DecodeFull(q: seq<sextet>): seq<byte> {
    if |q| < 4 then [] else DecodeGroup(q[0], q[1], q[2], q[3]) + DecodeFull(q[4..])
  }

  /** One group of three bytes survives encoding and decoding. */
  lemma DecodeGroupInverse(b0: byte, b1: byte, b2: byte)
    ensures var g := FullGroup(b0, b1, b2);
            DecodeGroup(g[0], g[1], g[2], g[3]) == [b0, b1, b2]
  {
  }

  /** Decoding a leading full group gives its three bytes, then the decoding of the rest. */
  lemma DecodeFullCons(b0: byte, b1: byte, b2: byte, rest: seq<sextet>)
    ensures DecodeFull(FullGroup(b0, b1, b2) + rest) == [b0, b1, b2] + DecodeFull(rest)
  {
    var g := FullGroup(b0, b1, b2);
    assert (g + rest)[..4] == g && (g + rest)[4..] == rest;
    DecodeGroupInverse(b0, b1, b2);
  }

  /** Unfolding the encoding of a sequence that starts with a full group. */
  lemma SextetsCons(b: seq<byte>)
    requires |b| >= 3
    ensures Sextets(b) == FullGroup(b[0], b[1], b[2]) + Sextets(b[3..])
  {
  }

  /** For whole 3-byte groups the sextets determine the bytes. */
  lemma {:induction false} DecodeSextets(b: seq<byte>)
    requires |b| % 3 == 0
    ensures DecodeFull(Sextets(b)) == b
    decreases |b|
  {
    if |b| > 0 {
      var head, tail := b[..3], b[3..];
      assert b == head + tail;
      SextetsCons(b);
      DecodeFullCons(b[0], b[1], b[2], Sextets(tail));
      DecodeSextets(tail);
      assert [b[0], b[1], b[2]] == head;
    }
  }

  /** The URL-safe alphabet is a bijection on sextets. */
  lemma UrlCharInjective(i: sextet, j: sextet)
    requires UrlChar(i) == UrlChar(j)
    ensures i == j
  {
  }

  lemma {:induction false} MapUrlInjective(p: seq<sextet>, q: seq<sextet>)
    requires MapUrl(p) == MapUrl(q)
    ensures p == q
  {
  }

  /** For whole 3-byte groups the unpadded URL-safe encoding is injective. */
  lemma EncodeUrlInjective(a: seq<byte>, b: seq<byte>)
    requires |a| % 3 == 0 && |b| % 3 == 0
    requires EncodeUrlUnpadded(a) == EncodeUrlUnpadded(b)
    ensures a == b
  {
    MapUrlInjective(Sextets(a), Sextets(b));
    DecodeSextets(a);
    DecodeSextets(b);
  }
}
