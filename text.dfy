/** The parts of Python's `str` type that the bot relies on: whitespace and
    digit classes, `in`, `startswith`/`endswith`, `split`, `replace`,
    `lower`, `str(int)` and `int(digits)`. A Dafny `char` is a Unicode
    scalar value, so a Python `str` holding a lone surrogate (which a JSON
    escape such as `\ud800` can produce) is outside the model. */
module Text {

  /** `c.isspace()`: the characters that `str.split()` and the regular
      expression class `\s` treat as whitespace. */
  predicate IsSpace(c: char) {
    || ('\t' <= c <= '\r')
    || ('\U{1C}' <= c <= ' ')
    || c == '\U{85}' || c == '\U{A0}' || c == '\U{1680}'
    || ('\U{2000}' <= c <= '\U{200A}')
    || c == '\U{2028}' || c == '\U{2029}' || c == '\U{202F}' || c == '\U{205F}' || c == '\U{3000}'
  }

  /** The ASCII digits `0`-`9`. */
  predicate IsDigit(c: char) {
    '0' <= c <= '9'
  }

  predicate AllDigits(s: string) {
    forall i :: 0 <= i < |s| ==> IsDigit(s[i])
  }

  /** `str.lower()` restricted to the characters whose lower-case form is an
      ASCII letter: `A`-`Z` and U+212A KELVIN SIGN. Every other character is
      kept; no comparison in the model can tell it from its lower case form. */
  function LowerChar(c: char): (r: char)
    ensures 'A' <= c <= 'Z' ==> 'a' <= r <= 'z'
    ensures !('A' <= r <= 'Z')
  {
    if 'A' <= c <= 'Z' then (c as int + 32) as char
    else if c == '\U{212A}' then 'k'
    else c
  }

  function Lower(s: string): (r: string)
    ensures |r| == |s|
  {
    seq(|s|, i requires 0 <= i < |s| => LowerChar(s[i]))
  }

  /** Lower-casing twice is lower-casing once. */
  lemma LowerIdempotent(s: string)
    ensures Lower(Lower(s)) == Lower(s)
  {
    forall i | 0 <= i < |s|
      ensures Lower(Lower(s))[i] == Lower(s)[i]
    {
      var c := s[i];
      assert LowerChar(LowerChar(c)) == LowerChar(c);
    }
  }

  predicate StartsWith(s: string, p: string) {
    |p| <= |s| && s[..|p|] == p
  }

  predicate EndsWith(s: string, p: string) {
    |p| <= |s| && s[|s| - |p|..] == p
  }

  /** `p` occurs in `s` starting at index `i`. */
  predicate OccursAt(s: string, p: string, i: int) {
    0 <= i && i + |p| <= |s| && s[i..i + |p|] == p
  }

  /** Python's `p in s` for strings. */
  predicate Contains(s: string, p: string) {
    exists i | 0 <= i <= |s| - |p| :: OccursAt(s, p, i)
  }

  lemma ContainsLength(s: string, p: string)
    requires Contains(s, p)
    ensures |p| <= |s|
  {
  }

  /** An occurrence inside a slice is an occurrence in the whole string. */
  lemma OccursInSlice(s: string, lo: int, hi: int, p: string, i: int)
    requires 0 <= lo <= hi <= |s|
    requires OccursAt(s[lo..hi], p, i)
    ensures OccursAt(s, p, lo + i)
  {
    forall j | 0 <= j < |p|
      ensures s[lo + i..lo + i + |p|][j] == p[j]
    {
      assert s[lo..hi][i..i + |p|][j] == p[j];
    }
  }

  /** Index of the leftmost `c` in `s` (`s.find(c)` when it is found). */
  function IndexOfChar(s: string, c: char): (i: nat)
    requires c in s
    ensures i < |s| && s[i] == c && c !in s[..i]
  {
    if s[0] == c then 0 else 1 + IndexOfChar(s[1..], c)
  }

  /** `s.split(sep)` for a one-character separator. */
  function SplitOn(s: string, sep: char): (parts: seq<string>)
    ensures |parts| >= 1
    decreases |s|
  {
    if sep !in s then [s]
    else
      var i := IndexOfChar(s, sep);
      [s[..i]] + SplitOn(s[i + 1..], sep)
  }

  /** Splitting a string that holds no separator leaves it whole. */
  lemma SplitOnNoSeparator(s: string, sep: char)
    requires sep !in s
    ensures SplitOn(s, sep) == [s]
  {
  }

  /** `head + [sep] + tail` splits at that separator first when `head`
      holds none. */
  lemma SplitOnFirst(head: string, sep: char, tail: string)
    requires sep !in head
    ensures SplitOn(head + [sep] + tail, sep) == [head] + SplitOn(tail, sep)
  {
    var s := head + [sep] + tail;
    assert s[|head|] == sep;
    var i := IndexOfChar(s, sep);
    assert s[..|head|] == head;
    assert s[i + 1..] == tail;
  }

  /** Length of the longest prefix of `s` without whitespace. */
  function NonSpaceRun(s: string): (k: nat)
    ensures k <= |s|
    ensures forall i :: 0 <= i < k ==> !IsSpace(s[i])
    ensures k < |s| ==> IsSpace(s[k])
  {
    if s == [] || IsSpace(s[0]) then 0 else 1 + NonSpaceRun(s[1..])
  }

  /** `s.split()`: the maximal runs of non-whitespace characters, in order. */
  function Words(s: string): (ws: seq<string>)
    ensures forall w :: w in ws ==> w != [] && forall j :: 0 <= j < |w| ==> !IsSpace(w[j])
    decreases |s|
  {
    if s == [] then []
    else if IsSpace(s[0]) then Words(s[1..])
    else
      var k := NonSpaceRun(s);
      [s[..k]] + Words(s[k..])
  }

  /** A whitespace-free piece of the text lies inside a single word: the
      reason why a domain found anywhere in a message is found in one of its
      words. */
  lemma {:induction false} WordsKeepInfix(s: string, p: string, i: nat)
    requires p != [] && OccursAt(s, p, i)
    requires forall j :: 0 <= j < |p| ==> !IsSpace(p[j])
    ensures exists w :: w in Words(s) && Contains(w, p)
    decreases |s|
  {
    if IsSpace(s[0]) {
      assert s[1..][i - 1..i - 1 + |p|] == s[i..i + |p|];
      WordsKeepInfix(s[1..], p, i - 1);
    } else {
      var k := NonSpaceRun(s);
      if i < k {
        assert s[..k][i..i + |p|] == s[i..i + |p|];
        assert OccursAt(s[..k], p, i);
        assert s[..k] in Words(s);
      } else {
        assert s[k..][i - k..i - k + |p|] == s[i..i + |p|];
        WordsKeepInfix(s[k..], p, i - k);
        var w :| w in Words(s[k..]) && Contains(w, p);
        assert w in Words(s);
      }
    }
  }

  /** Every word of `s.split()` is a piece of `s`. */
  lemma {:induction false} WordsInText(s: string, w: string)
    requires w in Words(s)
    ensures exists i :: OccursAt(s, w, i)
    decreases |s|
  {
    assert s != [];
    if IsSpace(s[0]) {
      assert Words(s) == Words(s[1..]);
      WordsInText(s[1..], w);
      var i :| OccursAt(s[1..], w, i);
      assert s[1..|s|] == s[1..];
      OccursInSlice(s, 1, |s|, w, i);
    } else {
      var k := NonSpaceRun(s);
      assert Words(s) == [s[..k]] + Words(s[k..]);
      if w == s[..k] {
        assert OccursAt(s, w, 0);
      } else {
        assert w in Words(s[k..]);
        WordsInText(s[k..], w);
        var i :| OccursAt(s[k..], w, i);
        assert s[k..|s|] == s[k..];
        OccursInSlice(s, k, |s|, w, i);
      }
    }
  }

  /** A string contains whatever it was built around. */
  lemma ContainsMiddle(x: string, m: string, y: string)
    ensures OccursAt(x + m + y, m, |x|) && Contains(x + m + y, m)
  {
    var s := x + m + y;
    assert s[|x|..|x| + |m|] == m;
    assert OccursAt(s, m, |x|);
  }

  /** What a piece of `s` contains, `s` contains. */
  lemma ContainsThroughPiece(s: string, w: string, i: int, p: string)
    requires OccursAt(s, w, i) && Contains(w, p)
    ensures Contains(s, p)
  {
    var j :| 0 <= j <= |w| - |p| && OccursAt(w, p, j);
    assert s[i..i + |w|] == w;
    OccursInSlice(s, i, i + |w|, p, j);
  }

  /** `c * n` for a one-character string `c`; a negative count gives `''`. */
  function Repeat(c: char, n: int): (r: string)
    ensures |r| == if n < 0 then 0 else n
    ensures forall i :: 0 <= i < |r| ==> r[i] == c
  {
    if n <= 0 then [] else [c] + Repeat(c, n - 1)
  }

  function DigitChar(d: nat): (c: char)
    requires d < 10
    ensures IsDigit(c)
  {
    ('0' as int + d) as char
  }

  function DigitValue(c: char): (d: nat)
    requires IsDigit(c)
    ensures d < 10 && DigitChar(d) == c
  {
    c as int - '0' as int
  }

  /** `str(n)` for a natural number. */
  function NatToString(n: nat): (s: string)
    ensures s != [] && AllDigits(s)
  {
    if n < 10 then [DigitChar(n)] else NatToString(n / 10) + [DigitChar(n % 10)]
  }

  /** `str(n)` for any integer. */
  function IntToString(n: int): string {
    if n < 0 then "-" + NatToString(-n) else NatToString(n)
  }

  /** `int(s)` for a string of ASCII digits. */
  function ParseDigits(s: string): nat
    requires AllDigits(s)
  {
    if s == [] then 0 else 10 * ParseDigits(s[..|s| - 1]) + DigitValue(s[|s| - 1])
  }

  /** Reading back `str(n)` with `int` gives `n`. */
  lemma {:induction false} ParseNatToString(n: nat)
    ensures ParseDigits(NatToString(n)) == n
  {
    if n >= 10 {
      var s := NatToString(n);
      assert s[..|s| - 1] == NatToString(n / 10);
      ParseNatToString(n / 10);
    }
  }

  /** Decimal rendering is injective. */
  lemma NatToStringInjective(m: nat, n: nat)
    requires NatToString(m) == NatToString(n)
    ensures m == n
  {
    ParseNatToString(m);
    ParseNatToString(n);
  }
}
