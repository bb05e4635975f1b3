/** Base 64 with the URL- and filename-safe alphabet of section 5 of
    RFC 4648, padded with `=` as `base64.urlsafe_b64encode` pads it
    (section 3.2). The decoder is the strict inverse: it accepts exactly
    the padded, canonical encodings. */
module Base64Url {
  import opened Wrappers
  import opened Utf8

  /** The character for a 6-bit value: `A`-`Z`, `a`-`z`, `0`-`9`, `-`, `_`. */
  function SextetChar(v: nat): (c: char)
    requires v < 64
    ensures c != '='
  {
    if v < 26 then ('A' as int + v) as char
    else if v < 52 then ('a' as int + (v - 26)) as char
    else if v < 62 then ('0' as int + (v - 52)) as char
    else if v == 62 then '-'
    else '_'
  }

  /** The 6-bit value a character of the alphabet stands for. */
  function SextetValue(c: char): (r: Option<nat>)
    ensures r.Some? ==> r.value < 64 && SextetChar(r.value) == c
  {
    if 'A' <= c <= 'Z' then Some(c as int - 'A' as int)
    else if 'a' <= c <= 'z' then Some(c as int - 'a' as int + 26)
    else if '0' <= c <= '9' then Some(c as int - '0' as int + 52)
    else if c == '-' then Some(62)
    else if c == '_' then Some(63)
    else None
  }

  lemma SextetRoundTrip(v: nat)
    requires v < 64
    ensures SextetValue(SextetChar(v)) == Some(v)
  {
  }

  predicate InAlphabet(c: char) {
    SextetValue(c).Some? || c == '='
  }

  lemma SextetInAlphabet(v: nat)
    requires v < 64
    ensures InAlphabet(SextetChar(v))
  {
    SextetRoundTrip(v);
  }

  /** The four characters for three bytes. */
  function Quantum(b0: Byte, b1: Byte, b2: Byte): (q: string)
    ensures |q| == 4 && forall i :: 0 <= i < 4 ==> q[i] != '=' && InAlphabet(q[i])
  {
    var v0, v1, v2, v3 := b0 / 4, (b0 % 4) * 16 + b1 / 16, (b1 % 16) * 4 + b2 / 64, b2 % 64;
    SextetInAlphabet(v0);
    SextetInAlphabet(v1);
    SextetInAlphabet(v2);
    SextetInAlphabet(v3);
    [SextetChar(v0), SextetChar(v1), SextetChar(v2), SextetChar(v3)]
  }

  /** The last group for one or two bytes, padded with `=`. */
  function PaddedQuantum(bs: seq<Byte>): (q: string)
    requires 1 <= |bs| <= 2
    ensures |q| == 4 && forall i :: 0 <= i < 4 ==> InAlphabet(q[i])
  {
    if |bs| == 1 then
      SextetInAlphabet(bs[0] / 4);
      SextetInAlphabet((bs[0] % 4) * 16);
      [SextetChar(bs[0] / 4), SextetChar((bs[0] % 4) * 16), '=', '=']
    else
      SextetInAlphabet(bs[0] / 4);
      SextetInAlphabet((bs[0] % 4) * 16 + bs[1] / 16);
      SextetInAlphabet((bs[1] % 16) * 4);
      [SextetChar(bs[0] / 4), SextetChar((bs[0] % 4) * 16 + bs[1] / 16),
       SextetChar((bs[1] % 16) * 4), '=']
  }

  /** `base64.urlsafe_b64encode(bs).decode()`. */
  function Encode(bs: seq<Byte>): (s: string)
    ensures |s| == 4 * ((|bs| + 2) / 3)
    ensures forall i :: 0 <= i < |s| ==> InAlphabet(s[i])
  {
    if |bs| == 0 then []
    else if |bs| < 3 then PaddedQuantum(bs)
    else Quantum(bs[0], bs[1], bs[2]) + Encode(bs[3..])
  }

  /** The bytes of one group of four characters, `None` when a character is
      outside the alphabet or a padded group has stray low bits. */
  function DecodeQuantum(q: string, last: bool): (r: Option<seq<Byte>>)
    requires |q| == 4
    ensures r.Some? ==> 1 <= |r.value| <= 3 && (!last ==> |r.value| == 3)
  {
    var v0, v1 := SextetValue(q[0]), SextetValue(q[1]);
    if v0.None? || v1.None? then None
    else
      var a, b := v0.value, v1.value;
      if last && q[2] == '=' && q[3] == '=' then
        if b % 16 == 0 then Some([a * 4 + b / 16]) else None
      else
        var v2 := SextetValue(q[2]);
        if v2.None? then None
        else
          var c := v2.value;
          if last && q[3] == '=' then
            if c % 4 == 0 then Some([a * 4 + b / 16, (b % 16) * 16 + c / 4]) else None
          else
            var v3 := SextetValue(q[3]);
            if v3.None? then None
            else Some([a * 4 + b / 16, (b % 16) * 16 + c / 4, (c % 4) * 64 + v3.value])
  }

  /** Strict decoding: a whole number of groups of four, padding only in the
      last group. */
  function Decode(s: string): (r: Option<seq<Byte>>)
    ensures r.Some? ==> |s| % 4 == 0
    decreases |s|
  {
    if s == [] then Some([])
    else if |s| < 4 then None
    else
      match DecodeQuantum(s[..4], |s| == 4)
      case None => None
      case Some(head) =>
        match Decode(s[4..])
        case None => None
        case Some(tail) => Some(head + tail)
  }

  /** The middle sextets of a quantum carry the low bits of one byte and the
      high bits of the next. */
  lemma SextetsOfBytes(b0: Byte, b1: Byte, b2: Byte)
    ensures ((b0 % 4) * 16 + b1 / 16) / 16 == b0 % 4
    ensures ((b0 % 4) * 16 + b1 / 16) % 16 == b1 / 16
    ensures ((b1 % 16) * 4 + b2 / 64) / 4 == b1 % 16
    ensures ((b1 % 16) * 4 + b2 / 64) % 4 == b2 / 64
  {
    var x, y := b0 % 4, b1 / 16;
    assert (x * 16 + y) / 16 == x && (x * 16 + y) % 16 == y;
    var u, w := b1 % 16, b2 / 64;
    assert (u * 4 + w) / 4 == u && (u * 4 + w) % 4 == w;
  }

  lemma DecodeQuantumFull(b0: Byte, b1: Byte, b2: Byte, last: bool)
    ensures DecodeQuantum(Quantum(b0, b1, b2), last) == Some([b0, b1, b2])
  {
    var v0, v1, v2, v3 := b0 / 4, (b0 % 4) * 16 + b1 / 16, (b1 % 16) * 4 + b2 / 64, b2 % 64;
    SextetRoundTrip(v0);
    SextetRoundTrip(v1);
    SextetRoundTrip(v2);
    SextetRoundTrip(v3);
    SextetsOfBytes(b0, b1, b2);
    assert v0 * 4 + v1 / 16 == b0;
    assert (v1 % 16) * 16 + v2 / 4 == b1;
    assert (v2 % 4) * 64 + v3 == b2;
  }

  /** Decoding goes group by group. */
  lemma DecodeGroup(q: string, rest: string, head: seq<Byte>, tail: seq<Byte>)
    requires |q| == 4
    requires DecodeQuantum(q, rest == []) == Some(head) && Decode(rest) == Some(tail)
    ensures Decode(q + rest) == Some(head + tail)
  {
    var s := q + rest;
    assert s[..4] == q && s[4..] == rest;
  }

  lemma DecodeEncodeOne(b0: Byte)
    ensures Decode(Encode([b0])) == Some([b0])
  {
    var s := Encode([b0]);
    var v0, v1 := b0 / 4, (b0 % 4) * 16;
    SextetRoundTrip(v0);
    SextetRoundTrip(v1);
    assert DecodeQuantum(s, true) == Some([b0]);
    DecodeGroup(s, [], [b0], []);
    assert s + [] == s;
    var one: seq<Byte> := [b0];
    assert one + [] == one;
  }

  lemma DecodeEncodeTwo(b0: Byte, b1: Byte)
    ensures Decode(Encode([b0, b1])) == Some([b0, b1])
  {
    var s := Encode([b0, b1]);
    var v0, v1, v2 := b0 / 4, (b0 % 4) * 16 + b1 / 16, (b1 % 16) * 4;
    SextetRoundTrip(v0);
    SextetRoundTrip(v1);
    SextetRoundTrip(v2);
    SextetsOfBytes(b0, b1, 0);
    assert v0 * 4 + v1 / 16 == b0;
    assert (v1 % 16) * 16 + v2 / 4 == b1;
    assert DecodeQuantum(s, true) == Some([b0, b1]);
    DecodeGroup(s, [], [b0, b1], []);
    assert s + [] == s;
    var two: seq<Byte> := [b0, b1];
    assert two + [] == two;
  }

  /** Three bytes in front encode as one full group in front. */
  lemma EncodeGroup(three: seq<Byte>, tail: seq<Byte>)
    requires |three| == 3
    ensures Encode(three + tail) == Quantum(three[0], three[1], three[2]) + Encode(tail)
  {
    assert (three + tail)[3..] == tail;
  }

  /** One full group in front of bytes that already decode. */
  lemma DecodeFullGroup(three: seq<Byte>, tail: seq<Byte>, rest: string)
    requires |three| == 3 && Decode(rest) == Some(tail)
    ensures Decode(Quantum(three[0], three[1], three[2]) + rest) == Some(three + tail)
  {
    DecodeQuantumFull(three[0], three[1], three[2], rest == []);
    assert three == [three[0], three[1], three[2]];
    DecodeGroup(Quantum(three[0], three[1], three[2]), rest, three, tail);
  }

  lemma DecodeEncodeStep(three: seq<Byte>, tail: seq<Byte>)
    requires |three| == 3 && Decode(Encode(tail)) == Some(tail)
    ensures Decode(Encode(three + tail)) == Some(three + tail)
  {
    EncodeGroup(three, tail);
    DecodeFullGroup(three, tail, Encode(tail));
  }

  /** Decoding what was encoded gives back the bytes. */
  lemma {:induction false} DecodeEncode(bs: seq<Byte>)
    ensures Decode(Encode(bs)) == Some(bs)
  {
    if |bs| == 1 {
      assert bs == [bs[0]];
      DecodeEncodeOne(bs[0]);
    } else if |bs| == 2 {
      assert bs == [bs[0], bs[1]];
      DecodeEncodeTwo(bs[0], bs[1]);
    } else if |bs| >= 3 {
      DecodeEncode(bs[3..]);
      DecodeEncodeStep(bs[..3], bs[3..]);
      assert bs == bs[..3] + bs[3..];
    }
  }
}
