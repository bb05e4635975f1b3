/** The regular expressions of the link resolver, each written out as the
    predicate or the search it amounts to. A pattern of the form
    `literal(class+)` is searched leftmost-first and its greedy group is the
    longest run of the class after the literal; the other patterns are
    only checked for a match somewhere in the text. */
module Patterns {
  import opened Wrappers
  import opened Text

  /** The character classes the patterns use. */
  datatype CharClass =
    | Digits              // \d  (ASCII digits)
    | HostChars           // [a-z0-9\-]
    | NotAmpersand        // [^&]
    | NotAmpersandOrSpace // [^ &]
    | NotSpace            // [^\s]

  predicate InClass(c: char, k: CharClass) {
    match k
    case Digits => IsDigit(c)
    case HostChars => 'a' <= c <= 'z' || IsDigit(c) || c == '-'
    case NotAmpersand => c != '&'
    case NotAmpersandOrSpace => c != '&' && c != ' '
    case NotSpace => !IsSpace(c)
  }

  /** All of `s[lo..hi]` is in class `k`. */
  predicate AllIn(s: string, lo: int, hi: int, k: CharClass)
    requires 0 <= lo <= hi <= |s|
  {
    forall j :: lo <= j < hi ==> InClass(s[j], k)
  }

  /** Length of the longest run of class `k` that starts at `j`. */
  function Run(s: string, j: nat, k: CharClass): (n: nat)
    requires j <= |s|
    ensures j + n <= |s| && AllIn(s, j, j + n, k)
    ensures j + n < |s| ==> !InClass(s[j + n], k)
    decreases |s| - j
  {
    if j == |s| || !InClass(s[j], k) then 0 else 1 + Run(s, j + 1, k)
  }

  /** A run of the class that a character outside the class (or the end)
      follows is the longest run: what makes a greedy `class+`
      deterministic. */
  lemma {:induction false} RunExact(s: string, j: nat, m: nat, k: CharClass)
    requires j + m <= |s| && AllIn(s, j, j + m, k)
    requires j + m == |s| || !InClass(s[j + m], k)
    ensures Run(s, j, k) == m
    decreases m
  {
    if m > 0 {
      RunExact(s, j + 1, m - 1, k);
    }
  }

  /** `literal(class+)` matches at `i`. */
  predicate CaptureAt(s: string, lit: string, k: CharClass, i: int) {
    OccursAt(s, lit, i) && Run(s, i + |lit|, k) >= 1
  }

  /** The leftmost position at or after `from` where `literal(class+)`
      matches. */
  function FirstCapture(s: string, lit: string, k: CharClass, from: nat): (r: Option<nat>)
    ensures r.None? ==> forall i :: from <= i <= |s| ==> !CaptureAt(s, lit, k, i)
    ensures r.Some? ==> from <= r.value && CaptureAt(s, lit, k, r.value)
    ensures r.Some? ==> forall i :: from <= i < r.value ==> !CaptureAt(s, lit, k, i)
    decreases |s| - from
  {
    if from > |s| then None
    else if CaptureAt(s, lit, k, from) then Some(from)
    else FirstCapture(s, lit, k, from + 1)
  }

  /** The search stops at the first match it meets. */
  lemma {:induction false} FirstCaptureIs(s: string, lit: string, k: CharClass, from: nat, p: nat)
    requires from <= p && CaptureAt(s, lit, k, p)
    requires forall i :: from <= i < p ==> !OccursAt(s, lit, i)
    ensures FirstCapture(s, lit, k, from) == Some(p)
    decreases p - from
  {
    if from < p {
      FirstCaptureIs(s, lit, k, from + 1, p);
    }
  }

  /** Group 1 of `re.search(literal + '(' + class + '+)', s)`. */
  function Capture(s: string, lit: string, k: CharClass): (r: Option<string>)
    ensures r.None? <==> forall i :: 0 <= i <= |s| ==> !CaptureAt(s, lit, k, i)
    ensures r.Some? ==> r.value != [] && forall j :: 0 <= j < |r.value| ==> InClass(r.value[j], k)
  {
    match FirstCapture(s, lit, k, 0)
    case None => None
    case Some(i) =>
      var start := i + |lit|;
      Some(s[start..start + Run(s, start, k)])
  }

  /** A literal whose first character does not recur in it cannot occur
      across the end of a text that does not contain it. */
  lemma NoEarlierOccurrence(a: string, lit: string, s: string)
    requires lit != [] && forall j :: 1 <= j < |lit| ==> lit[j] != lit[0]
    requires !Contains(a, lit)
    requires |a| + |lit| <= |s| && s[..|a|] == a && s[|a|..|a| + |lit|] == lit
    ensures forall i :: 0 <= i < |a| ==> !OccursAt(s, lit, i)
  {
    var p := |a|;
    forall i | 0 <= i < p
      ensures !OccursAt(s, lit, i)
    {
      if i + |lit| <= p {
        assert forall k | i <= k < i + |lit| :: s[k] == a[k];
        assert !OccursAt(a, lit, i);
      } else if i + |lit| <= |s| {
        assert s[p] == s[p..p + |lit|][0] == lit[0];
        assert s[i..i + |lit|][p - i] == s[p];
      }
    }
  }

  /** A run of the class placed after any text, and followed by a character
      outside the class or by nothing, is the longest run there. */
  lemma RunOfPlaced(pre: string, g: string, rest: string, k: CharClass)
    requires forall j :: 0 <= j < |g| ==> InClass(g[j], k)
    requires rest == [] || !InClass(rest[0], k)
    ensures Run(pre + g + rest, |pre|, k) == |g|
  {
    var s := pre + g + rest;
    forall j | |pre| <= j < |pre| + |g|
      ensures InClass(s[j], k)
    {
      assert s[j] == g[j - |pre|];
    }
    assert AllIn(s, |pre|, |pre| + |g|, k);
    if rest != [] {
      assert s[|pre| + |g|] == rest[0];
    }
    RunExact(s, |pre|, |g|, k);
  }

  /** A class run placed right after the first occurrence of the literal
      is what the search captures. */
  lemma CaptureAfter(a: string, lit: string, k: CharClass, g: string, rest: string)
    requires lit != [] && forall j :: 1 <= j < |lit| ==> lit[j] != lit[0]
    requires !Contains(a, lit)
    requires g != [] && forall j :: 0 <= j < |g| ==> InClass(g[j], k)
    requires rest == [] || !InClass(rest[0], k)
    ensures Capture(a + lit + g + rest, lit, k) == Some(g)
  {
    var s := a + lit + g + rest;
    Pieces(a, lit, g, rest);
    NoEarlierOccurrence(a, lit, s);
    RunOfPlaced(a + lit, g, rest, k);
    CaptureIs(s, lit, k, |a|, g);
  }

  /** The search captures the run after the first occurrence of the literal. */
  lemma CaptureIs(s: string, lit: string, k: CharClass, p: nat, g: string)
    requires OccursAt(s, lit, p) && forall i :: 0 <= i < p ==> !OccursAt(s, lit, i)
    requires g != [] && p + |lit| + |g| <= |s|
    requires Run(s, p + |lit|, k) == |g| && s[p + |lit|..p + |lit| + |g|] == g
    ensures Capture(s, lit, k) == Some(g)
  {
    FirstCaptureIs(s, lit, k, 0, p);
    CaptureOfFirst(s, lit, k, p);
  }

  lemma CaptureOfFirst(s: string, lit: string, k: CharClass, p: nat)
    requires FirstCapture(s, lit, k, 0) == Some(p)
    ensures p + |lit| <= |s|
    ensures Capture(s, lit, k) == Some(s[p + |lit|..p + |lit| + Run(s, p + |lit|, k)])
  {
  }

  lemma Pieces(a: string, lit: string, g: string, rest: string)
    ensures |a| + |lit| <= |a + lit + g + rest|
    ensures (a + lit + g + rest)[..|a|] == a && (a + lit + g + rest)[|a|..|a| + |lit|] == lit
    ensures OccursAt(a + lit + g + rest, lit, |a|)
    ensures (a + lit + g + rest)[|a| + |lit|..|a| + |lit| + |g|] == g
  {
    var s := a + lit + g + rest;
    assert s[|a|..|a| + |lit|] == lit;
  }

  /** `d\-[a-z0-9\-]+\.terabox\.com/file/` matches at `i`; the length of
      the match, when it does, is `HostMatchEnd(s, i) - i`. */
  predicate HostAt(s: string, i: int) {
    OccursAt(s, "d-", i) && Run(s, i + 2, HostChars) >= 1
    && OccursAt(s, ".terabox.com/file/", i + 2 + Run(s, i + 2, HostChars))
  }

  function HostMatchEnd(s: string, i: int): (e: nat)
    requires HostAt(s, i)
    ensures i < e <= |s|
  {
    i + 2 + Run(s, i + 2, HostChars) + |".terabox.com/file/"|
  }

  /** A run of `m` host characters after `d-` at `i`, then `.terabox.com/file/`. */
  predicate HostRunOf(s: string, i: int, m: int) {
    0 <= i && OccursAt(s, "d-", i) && 1 <= m && i + 2 + m <= |s|
    && AllIn(s, i + 2, i + 2 + m, HostChars) && OccursAt(s, ".terabox.com/file/", i + 2 + m)
  }

  /** The backtracking reading of the host pattern: some non-empty run of
      host characters after `d-` is followed by `.terabox.com/file/`.
      Since `.` is not a host character, only the longest run can be. */
  lemma HostAtIff(s: string, i: int)
    ensures HostAt(s, i) <==> exists m :: HostRunOf(s, i, m)
  {
    if HostAt(s, i) {
      assert HostRunOf(s, i, Run(s, i + 2, HostChars));
    }
    if exists m :: HostRunOf(s, i, m) {
      var m :| HostRunOf(s, i, m);
      assert s[i + 2 + m] == '.';
      RunExact(s, i + 2, m, HostChars);
    }
  }

  predicate HasHost(s: string) {
    exists i | 0 <= i <= |s| :: HostAt(s, i)
  }

  /** `size=\d+` matches somewhere. */
  predicate HasSizeMarker(s: string) {
    exists i | 0 <= i <= |s| :: CaptureAt(s, "size=", Digits, i)
  }

  /** `fin=.+?\.mp4` matches somewhere: `fin=`, at least one character other
      than a line feed, then `.mp4`. */
  predicate HasFinMarker(s: string) {
    exists i, j | 0 <= i && i + 5 <= j && j + 4 <= |s| ::
      OccursAt(s, "fin=", i) && OccursAt(s, ".mp4", j) && '\n' !in s[i + 4..j]
  }

  /** `fid=\d+\-\d+\-\d+` matches at `i`. */
  predicate FidAt(s: string, i: int) {
    OccursAt(s, "fid=", i) &&
    var a := Run(s, i + 4, Digits);
    a >= 1 && i + 4 + a < |s| && s[i + 4 + a] == '-' &&
    var b := Run(s, i + 5 + a, Digits);
    b >= 1 && i + 5 + a + b < |s| && s[i + 5 + a + b] == '-' &&
    Run(s, i + 6 + a + b, Digits) >= 1
  }

  predicate HasFidMarker(s: string) {
    exists i | 0 <= i <= |s| :: FidAt(s, i)
  }

  /** The length of the `https?://` that starts at `i`, or 0. */
  function SchemeLength(s: string, i: int): nat {
    if OccursAt(s, "https://", i) then 8 else if OccursAt(s, "http://", i) then 7 else 0
  }

  /** `https?://` followed by the host pattern and `[^\s]+` matches at `i`. */
  predicate DirectLinkAt(s: string, i: int) {
    var h := SchemeLength(s, i);
    h > 0 && HostAt(s, i + h) && Run(s, HostMatchEnd(s, i + h), NotSpace) >= 1
  }

  /** Where a direct link matched at `i` ends: the greedy `[^\s]+` takes the
      whole run of non-whitespace. */
  function DirectLinkEnd(s: string, i: int): (e: nat)
    requires DirectLinkAt(s, i)
    ensures i < e <= |s|
    ensures e < |s| ==> IsSpace(s[e])
  {
    var h := SchemeLength(s, i);
    assert HostAt(s, i + h);
    NonSpaceRunEnd(s, HostMatchEnd(s, i + h))
  }

  /** The end of the run of non-whitespace from `j`: whitespace or the end
      of `s` follows it. */
  function NonSpaceRunEnd(s: string, j: nat): (e: nat)
    requires j <= |s|
    ensures j <= e <= |s|
    ensures e < |s| ==> IsSpace(s[e])
  {
    var e := j + Run(s, j, NotSpace);
    assert e < |s| ==> !InClass(s[e], NotSpace);
    e
  }

  function FirstDirectLink(s: string, from: nat): (r: Option<nat>)
    ensures r.None? ==> forall i :: from <= i <= |s| ==> !DirectLinkAt(s, i)
    ensures r.Some? ==> from <= r.value && DirectLinkAt(s, r.value)
    ensures r.Some? ==> forall i :: from <= i < r.value ==> !DirectLinkAt(s, i)
    decreases |s| - from
  {
    if from > |s| then None
    else if DirectLinkAt(s, from) then Some(from)
    else FirstDirectLink(s, from + 1)
  }

  /** Group 1 of `re.search(r'(https?://d\-[a-z0-9\-]+\.terabox\.com/file/[^\s]+)', s)`. */
  function DirectLink(s: string): (r: Option<string>)
    ensures r.None? <==> forall i :: 0 <= i <= |s| ==> !DirectLinkAt(s, i)
    ensures r.Some? ==> r.value != []
  {
    match FirstDirectLink(s, 0)
    case None => None
    case Some(i) => Some(s[i..DirectLinkEnd(s, i)])
  }
}
