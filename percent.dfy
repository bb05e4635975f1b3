/** Percent-encoding as `urllib.parse` does it: `quote(s, safe='')`
    escapes every UTF-8 byte outside the unreserved set of section 2.3 of
    RFC 3986 as `%XX` (section 2.1), and `unquote` undoes any valid `%XX`
    escape, decoding the bytes of each ASCII run as UTF-8 with replacement. */
module Percent {
  import opened Utf8
  import Text

  /** ALPHA / DIGIT / "-" / "." / "_" / "~" (section 2.3 of RFC 3986). */
  predicate Unreserved(b: Byte) {
    || ('A' as int <= b <= 'Z' as int)
    || ('a' as int <= b <= 'z' as int)
    || ('0' as int <= b <= '9' as int)
    || b == '-' as int || b == '.' as int || b == '_' as int || b == '~' as int
  }

  const UpperHex: string := "0123456789ABCDEF"

  /** One byte as `quote` writes it. */
  function QuoteByte(b: Byte): (q: string)
    ensures AllAscii(q)
  {
    if Unreserved(b) then [b as char] else ['%', UpperHex[b / 16], UpperHex[b % 16]]
  }

  /** `quote_from_bytes(bs, safe='')`. */
  function QuoteBytes(bs: seq<Byte>): (q: string)
    ensures AllAscii(q)
  {
    if bs == [] then [] else QuoteByte(bs[0]) + QuoteBytes(bs[1..])
  }

  /** `quote(s, safe='')`. */
  function Quote(s: string): (q: string)
    ensures AllAscii(q)
  {
    QuoteBytes(Encode(s))
  }

  /** The character codes of an ASCII string, as bytes. */
  function AsciiBytes(s: string): (bs: seq<Byte>)
    requires AllAscii(s)
    ensures |bs| == |s| && forall i :: 0 <= i < |s| ==> bs[i] == s[i] as int
  {
    seq(|s|, i requires 0 <= i < |s| => s[i] as int)
  }

  predicate IsHexByte(b: Byte) {
    || ('0' as int <= b <= '9' as int)
    || ('a' as int <= b <= 'f' as int)
    || ('A' as int <= b <= 'F' as int)
  }

  function HexValue(b: Byte): (v: nat)
    requires IsHexByte(b)
    ensures v < 16
  {
    if b <= '9' as int then b - '0' as int
    else if b <= 'F' as int then b - 'A' as int + 10
    else b - 'a' as int + 10
  }

  /** `unquote_to_bytes`: every `%` followed by two hexadecimal digits (of
      either case) becomes the byte they spell; everything else is kept. */
  function PercentDecode(bs: seq<Byte>): seq<Byte> {
    if bs == [] then []
    else if bs[0] == '%' as int && |bs| >= 3 && IsHexByte(bs[1]) && IsHexByte(bs[2]) then
      [HexValue(bs[1]) * 16 + HexValue(bs[2])] + PercentDecode(bs[3..])
    else [bs[0]] + PercentDecode(bs[1..])
  }

  /** Length of the longest ASCII prefix of `s`. */
  function AsciiRun(s: string): (k: nat)
    ensures k <= |s| && AllAscii(s[..k])
    ensures k < |s| ==> !IsAscii(s[k])
  {
    if s == [] || !IsAscii(s[0]) then 0 else 1 + AsciiRun(s[1..])
  }

  /** `unquote(s)`: non-ASCII characters pass through; each maximal ASCII run
      is percent-decoded to bytes and those bytes are decoded as UTF-8 with
      replacement. */
  function Unquote(s: string): string
    decreases |s|
  {
    if s == [] then []
    else if !IsAscii(s[0]) then [s[0]] + Unquote(s[1..])
    else
      var k := AsciiRun(s);
      Decode(PercentDecode(AsciiBytes(s[..k]))) + Unquote(s[k..])
  }

  /** `s.replace('+', ' ')`. */
  function PlusToSpace(s: string): (r: string)
    ensures |r| == |s|
  {
    seq(|s|, i requires 0 <= i < |s| => if s[i] == '+' then ' ' else s[i])
  }

  /** `unquote_plus(s)`, as `parse_qsl` applies it to names and values. */
  function UnquotePlus(s: string): string {
    Unquote(PlusToSpace(s))
  }

  lemma AsciiBytesAppend(a: string, b: string)
    requires AllAscii(a) && AllAscii(b)
    ensures AllAscii(a + b) && AsciiBytes(a + b) == AsciiBytes(a) + AsciiBytes(b)
  {
  }

  /** Each digit `quote` writes is a hexadecimal digit with its own value. */
  lemma UpperHexValue(d: nat)
    requires d < 16
    ensures IsHexByte(UpperHex[d] as int) && HexValue(UpperHex[d] as int) == d
  {
  }

  /** The escape of one byte decodes to that byte, whatever follows it. */
  lemma PercentDecodeQuoteByte(b: Byte, rest: seq<Byte>)
    ensures PercentDecode(AsciiBytes(QuoteByte(b)) + rest) == [b] + PercentDecode(rest)
  {
    var all := AsciiBytes(QuoteByte(b)) + rest;
    if Unreserved(b) {
      assert all[0] == b && all[1..] == rest;
    } else {
      var hi, lo := UpperHex[b / 16], UpperHex[b % 16];
      assert all[0] == '%' as int && all[1] == hi as int && all[2] == lo as int;
      UpperHexValue(b / 16);
      UpperHexValue(b % 16);
      assert all[3..] == rest;
      assert PercentDecode(all) == [HexValue(hi as int) * 16 + HexValue(lo as int)] + PercentDecode(rest);
    }
  }

  /** Percent-decoding undoes `quote_from_bytes` byte for byte. */
  lemma {:induction false} PercentDecodeQuoteBytes(bs: seq<Byte>)
    ensures PercentDecode(AsciiBytes(QuoteBytes(bs))) == bs
  {
    if bs != [] {
      var q := QuoteByte(bs[0]);
      var rest := QuoteBytes(bs[1..]);
      AsciiBytesAppend(q, rest);
      PercentDecodeQuoteByte(bs[0], AsciiBytes(rest));
      PercentDecodeQuoteBytes(bs[1..]);
    }
  }

  /** On an all-ASCII string `unquote` is one decoding of the whole string. */
  lemma UnquoteAscii(s: string)
    requires AllAscii(s) && s != []
    ensures Unquote(s) == Decode(PercentDecode(AsciiBytes(s)))
  {
    var k := AsciiRun(s);
    assert k == |s|;
    assert s[..k] == s && s[k..] == [];
  }

  /** `unquote(quote(s, safe=''))` is `s`. */
  lemma UnquoteQuote(s: string)
    ensures Unquote(Quote(s)) == s
  {
    var q := Quote(s);
    PercentDecodeQuoteBytes(Encode(s));
    DecodeEncode(s);
    if q != [] {
      UnquoteAscii(q);
    }
  }

  /** What `quote(s, safe='')` writes: unreserved characters, `%` and
      upper-case hexadecimal digits, so never a `&`, `=` or whitespace. */
  predicate QuotedChar(c: char) {
    || ('A' <= c <= 'Z') || ('a' <= c <= 'z') || ('0' <= c <= '9')
    || c == '-' || c == '.' || c == '_' || c == '~' || c == '%'
  }

  lemma {:induction false} QuoteBytesChars(bs: seq<Byte>)
    ensures forall i :: 0 <= i < |QuoteBytes(bs)| ==> QuotedChar(QuoteBytes(bs)[i])
    ensures bs != [] ==> QuoteBytes(bs) != []
  {
    if bs != [] {
      QuoteBytesChars(bs[1..]);
      var q := QuoteByte(bs[0]);
      assert forall i :: 0 <= i < |q| ==> QuotedChar(q[i]) by {
        assert forall d :: 0 <= d < 16 ==> QuotedChar(UpperHex[d]);
      }
    }
  }

  /** A quoted non-empty string is a non-empty run of quoted characters. */
  lemma QuoteChars(s: string)
    ensures forall i :: 0 <= i < |Quote(s)| ==> QuotedChar(Quote(s)[i])
    ensures s != [] ==> Quote(s) != []
  {
    QuoteBytesChars(Encode(s));
  }

  /** Percent-decoding leaves byte strings without `%` alone. */
  lemma {:induction false} PercentDecodeNoPercent(bs: seq<Byte>)
    requires forall i :: 0 <= i < |bs| ==> bs[i] != '%' as int
    ensures PercentDecode(bs) == bs
  {
    if bs != [] {
      PercentDecodeNoPercent(bs[1..]);
    }
  }

  /** `unquote` leaves strings without `%` alone (its fast path). */
  lemma {:induction false} UnquoteNoPercent(s: string)
    requires '%' !in s
    ensures Unquote(s) == s
    decreases |s|
  {
    if s != [] {
      if IsAscii(s[0]) {
        var k := AsciiRun(s);
        var run := s[..k];
        PercentDecodeNoPercent(AsciiBytes(run));
        EncodeAscii(run);
        assert Encode(run) == AsciiBytes(run);
        DecodeEncode(run);
        assert s == run + s[k..];
        UnquoteNoPercent(s[k..]);
      } else {
        UnquoteNoPercent(s[1..]);
      }
    }
  }
}
