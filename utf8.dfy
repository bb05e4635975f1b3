/** UTF-8 as Python uses it: `str.encode()` (never fails on scalar values)
    and `bytes.decode('utf-8', 'replace')`, which turns every maximal
    ill-formed subpart into one U+FFFD, as section 3.9 of the Unicode
    Standard recommends. */
module Utf8 {

  type Byte = b: int | 0 <= b < 256

  const Replacement: char := '\U{FFFD}'

  predicate IsAscii(c: char) {
    c as int < 0x80
  }

  predicate AllAscii(s: string) {
    forall i :: 0 <= i < |s| ==> IsAscii(s[i])
  }

  /** The bytes of one character: its scalar value cut into 6-bit groups
      behind a lead byte that announces the length. */
  function EncodeChar(c: char): (bs: seq<Byte>)
    ensures 1 <= |bs| <= 4
    ensures (|bs| == 1) == IsAscii(c)
  {
    var n := c as int;
    var q1, r1 := n / 64, n % 64;
    var q2, r2 := q1 / 64, q1 % 64;
    var q3, r3 := q2 / 64, q2 % 64;
    if n < 0x80 then [n]
    else if n < 0x800 then [0xC0 + q1, 0x80 + r1]
    else if n < 0x10000 then [0xE0 + q2, 0x80 + r2, 0x80 + r1]
    else [0xF0 + q3, 0x80 + r3, 0x80 + r2, 0x80 + r1]
  }

  /** `s.encode('utf-8')`. */
  function Encode(s: string): seq<Byte> {
    if s == [] then [] else EncodeChar(s[0]) + Encode(s[1..])
  }

  /** An ASCII string encodes to its own character codes, one byte each. */
  lemma {:induction false} EncodeAscii(s: string)
    requires AllAscii(s)
    ensures |Encode(s)| == |s|
    ensures forall i :: 0 <= i < |s| ==> Encode(s)[i] == s[i] as int
  {
    if s != [] {
      EncodeAscii(s[1..]);
    }
  }

  /** How many continuation bytes a lead byte announces; 0 for a byte that
      cannot start a multi-byte sequence. */
  function Announced(lead: Byte): nat {
    if 0xC2 <= lead <= 0xDF then 1
    else if 0xE0 <= lead <= 0xEF then 2
    else if 0xF0 <= lead <= 0xF4 then 3
    else 0
  }

  /** Whether `b` may stand as the `i`-th continuation byte after `lead`
      (Table 3-7 of the Unicode Standard, "Well-Formed UTF-8 Byte Sequences"). */
  predicate ContinuationOk(lead: Byte, i: nat, b: Byte) {
    if i == 1 && lead == 0xE0 then 0xA0 <= b <= 0xBF
    else if i == 1 && lead == 0xED then 0x80 <= b <= 0x9F
    else if i == 1 && lead == 0xF0 then 0x90 <= b <= 0xBF
    else if i == 1 && lead == 0xF4 then 0x80 <= b <= 0x8F
    else 0x80 <= b <= 0xBF
  }

  /** The number of acceptable continuation bytes that follow `bs[0]`,
      counting from position `i` on and stopping at `need`. */
  function ValidContinuations(bs: seq<Byte>, need: nat, i: nat): (m: nat)
    requires 1 <= i <= need + 1 && i <= |bs|
    ensures i - 1 <= m <= need && m < |bs|
    ensures forall j :: i <= j <= m ==> j < |bs| && ContinuationOk(bs[0], j, bs[j])
    ensures m < need && m + 1 < |bs| ==> !ContinuationOk(bs[0], m + 1, bs[m + 1])
    decreases need + 1 - i
  {
    if i > need || i >= |bs| || !ContinuationOk(bs[0], i, bs[i]) then i - 1
    else ValidContinuations(bs, need, i + 1)
  }

  predicate IsScalar(n: int) {
    0 <= n < 0xD800 || 0xE000 <= n < 0x11_0000
  }

  /** The scalar value of a complete, well-formed multi-byte sequence. */
  function CodePoint(bs: seq<Byte>, need: nat): (n: int)
    requires 1 <= need <= 3 && need < |bs| && Announced(bs[0]) == need
    requires forall j :: 1 <= j <= need ==> ContinuationOk(bs[0], j, bs[j])
    ensures IsScalar(n) && n >= 0x80
  {
    var b0: int, b1: int := bs[0], bs[1];
    assert ContinuationOk(bs[0], 1, bs[1]);
    if need == 1 then (b0 - 0xC0) * 64 + (b1 - 0x80)
    else
      var b2: int := bs[2];
      assert ContinuationOk(bs[0], 2, bs[2]);
      if need == 2 then ((b0 - 0xE0) * 64 + (b1 - 0x80)) * 64 + (b2 - 0x80)
      else
        var b3: int := bs[3];
        assert ContinuationOk(bs[0], 3, bs[3]);
        var hi := (b0 - 0xF0) * 64 + (b1 - 0x80);
        assert 0x10 <= hi <= 0x10F;
        (((b0 - 0xF0) * 64 + (b1 - 0x80)) * 64 + (b2 - 0x80)) * 64 + (b3 - 0x80)
  }

  /** The first character decoded from `bs` and the number of bytes it
      consumes. */
  function DecodeStep(bs: seq<Byte>): (r: (char, nat))
    requires bs != []
    ensures 1 <= r.1 <= |bs|
  {
    var lead := bs[0];
    if lead < 0x80 then (lead as char, 1)
    else
      var need := Announced(lead);
      if need == 0 then (Replacement, 1)
      else
        var m := ValidContinuations(bs, need, 1);
        if m == need then (CodePoint(bs, need) as char, need + 1)
        else (Replacement, m + 1)
  }

  /** `bs.decode('utf-8', 'replace')`. */
  function Decode(bs: seq<Byte>): string
    decreases |bs|
  {
    if bs == [] then []
    else
      var (c, k) := DecodeStep(bs);
      [c] + Decode(bs[k..])
  }

  /** The bytes of one character decode to that character, whatever
      follows them. */
  lemma DecodeStepEncodeChar(c: char, rest: seq<Byte>)
    ensures DecodeStep(EncodeChar(c) + rest) == (c, |EncodeChar(c)|)
  {
    var n := c as int;
    if n < 0x80 {
    } else if n < 0x800 {
      DecodeTwoBytes(c, rest);
    } else if n < 0x10000 {
      DecodeThreeBytes(c, rest);
    } else {
      DecodeFourBytes(c, rest);
    }
  }

  lemma DecodeTwoBytes(c: char, rest: seq<Byte>)
    requires 0x80 <= c as int < 0x800
    ensures DecodeStep(EncodeChar(c) + rest) == (c, 2)
  {
    var n := c as int;
    var bs := EncodeChar(c) + rest;
    var q1, r1 := n / 64, n % 64;
    assert bs[0] == 0xC0 + q1 && bs[1] == 0x80 + r1;
    assert ValidContinuations(bs, 1, 1) == 1;
  }

  lemma DecodeThreeBytes(c: char, rest: seq<Byte>)
    requires 0x800 <= c as int < 0x10000
    ensures DecodeStep(EncodeChar(c) + rest) == (c, 3)
  {
    var n := c as int;
    var bs := EncodeChar(c) + rest;
    var q1, r1 := n / 64, n % 64;
    var q2, r2 := q1 / 64, q1 % 64;
    assert bs[0] == 0xE0 + q2 && bs[1] == 0x80 + r2 && bs[2] == 0x80 + r1;
    assert ValidContinuations(bs, 2, 2) == 2;
    assert ValidContinuations(bs, 2, 1) == 2;
  }

  lemma DecodeFourBytes(c: char, rest: seq<Byte>)
    requires 0x10000 <= c as int
    ensures DecodeStep(EncodeChar(c) + rest) == (c, 4)
  {
    var n := c as int;
    var bs := EncodeChar(c) + rest;
    var q1, r1 := n / 64, n % 64;
    var q2, r2 := q1 / 64, q1 % 64;
    var q3, r3 := q2 / 64, q2 % 64;
    assert bs[0] == 0xF0 + q3 && bs[1] == 0x80 + r3 && bs[2] == 0x80 + r2 && bs[3] == 0x80 + r1;
    assert ValidContinuations(bs, 3, 3) == 3;
    assert ValidContinuations(bs, 3, 2) == 3;
    assert ValidContinuations(bs, 3, 1) == 3;
  }

  /** Decoding what was encoded gives back the string: no replacement
      character ever appears for text that started out as a string. */
  lemma {:induction false} DecodeEncode(s: string)
    ensures Decode(Encode(s)) == s
  {
    if s != [] {
      var e := EncodeChar(s[0]);
      DecodeStepEncodeChar(s[0], Encode(s[1..]));
      assert (e + Encode(s[1..]))[|e|..] == Encode(s[1..]);
      DecodeEncode(s[1..]);
    }
  }
}
