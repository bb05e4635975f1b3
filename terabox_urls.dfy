/** The URL helpers of the link resolver: `normalize_url`,
    `extract_surl_parameter`, `is_direct_download_url`,
    `extract_filename_from_url`, the `size=` lookup of the direct path and
    `format_file_size`. */
module TeraboxUrls {
  import opened Wrappers
  import opened Text
  import opened UrlParse
  import Percent
  import opened Patterns

  const MirrorHost: string := "teraboxapp.com"
  const CanonicalHost: string := "terabox.com"

  /** `s.replace(pat, rep)`: occurrences are replaced left to right, and
      the scan resumes after each replaced occurrence. */
  function ReplaceAll(s: string, pat: string, rep: string): string
    requires pat != []
    decreases |s|
  {
    if s == [] then []
    else if StartsWith(s, pat) then rep + ReplaceAll(s[|pat|..], pat, rep)
    else [s[0]] + ReplaceAll(s[1..], pat, rep)
  }

  /** Replacing brings in no character that neither the text nor the
      replacement holds. */
  lemma {:induction false} ReplaceAllKeepsOut(s: string, pat: string, rep: string, c: char)
    requires pat != [] && c !in rep
    ensures c !in s ==> c !in ReplaceAll(s, pat, rep)
    decreases |s|
  {
    if s != [] && c !in s {
      if StartsWith(s, pat) {
        assert forall k :: |pat| <= k < |s| ==> s[|pat|..][k - |pat|] == s[k];
        ReplaceAllKeepsOut(s[|pat|..], pat, rep, c);
      } else {
        ReplaceAllKeepsOut(s[1..], pat, rep, c);
      }
    }
  }

  /** With nothing to replace the text is unchanged. */
  lemma {:induction false} ReplaceAllAbsent(s: string, pat: string, rep: string)
    requires pat != [] && !Contains(s, pat)
    ensures ReplaceAll(s, pat, rep) == s
    decreases |s|
  {
    if s != [] {
      assert !StartsWith(s, pat) by {
        if StartsWith(s, pat) {
          assert OccursAt(s, pat, 0);
        }
      }
      assert !Contains(s[1..], pat) by {
        forall i | 0 <= i <= |s[1..]| - |pat|
          ensures !OccursAt(s[1..], pat, i)
        {
          if OccursAt(s[1..], pat, i) {
            assert s[1..|s|] == s[1..];
            OccursInSlice(s, 1, |s|, pat, i);
          }
        }
      }
      ReplaceAllAbsent(s[1..], pat, rep);
    }
  }

  /** Facts about the two host names that the rewriting argument uses:
      `t` opens both and occurs nowhere else in either, and the names part
      at their eighth character. */
  lemma HostNameFacts()
    ensures |MirrorHost| == 14 && |CanonicalHost| == 11
    ensures forall j :: 1 <= j < |MirrorHost| ==> MirrorHost[j] != 't'
    ensures forall j :: 1 <= j < |CanonicalHost| ==> CanonicalHost[j] != 't'
    ensures MirrorHost[0] == 't' && CanonicalHost[0] == 't'
    ensures MirrorHost[7] == 'a' && CanonicalHost[7] == '.'
  {
    assert MirrorHost[1..] == "eraboxapp.com";
    assert forall j :: 1 <= j < |MirrorHost| ==> MirrorHost[j] in MirrorHost[1..];
    assert CanonicalHost[1..] == "erabox.com";
    assert forall j :: 1 <= j < |CanonicalHost| ==> CanonicalHost[j] in CanonicalHost[1..];
  }

  /** A proper tail of the mirror name does not start with `t`, so the
      rewritten text cannot open with an inserted canonical name. */
  lemma MirrorTailNotReplaced(y: string, k: nat)
    requires 1 <= k < |MirrorHost|
    requires StartsWith(ReplaceAll(y, MirrorHost, CanonicalHost), MirrorHost[k..])
    ensures y != [] && !StartsWith(y, MirrorHost)
  {
    HostNameFacts();
    assert ReplaceAll(y, MirrorHost, CanonicalHost)[0] == MirrorHost[k];
  }

  /** Peeling one kept character off both texts. */
  lemma MirrorTailStep(y: string, k: nat)
    requires 1 <= k < |MirrorHost| && y != [] && !StartsWith(y, MirrorHost)
    requires StartsWith(ReplaceAll(y, MirrorHost, CanonicalHost), MirrorHost[k..])
    ensures y[0] == MirrorHost[k]
    ensures StartsWith(ReplaceAll(y[1..], MirrorHost, CanonicalHost), MirrorHost[k + 1..])
  {
    var t := ReplaceAll(y[1..], MirrorHost, CanonicalHost);
    var ry := ReplaceAll(y, MirrorHost, CanonicalHost);
    assert ry == [y[0]] + t;
    var n := |MirrorHost| - k;
    assert ry[..n] == MirrorHost[k..];
    assert y[0] == ry[..n][0];
    assert t[..n - 1] == ry[..n][1..];
    assert MirrorHost[k..][1..] == MirrorHost[k + 1..];
  }

  /** If the rewritten text starts with a proper tail of the mirror host
      name, the original text started with it too. */
  lemma {:induction false} MirrorTailBack(y: string, k: nat)
    requires 1 <= k <= |MirrorHost|
    requires StartsWith(ReplaceAll(y, MirrorHost, CanonicalHost), MirrorHost[k..])
    ensures StartsWith(y, MirrorHost[k..])
    decreases |y|
  {
    if k < |MirrorHost| {
      MirrorTailNotReplaced(y, k);
      MirrorTailStep(y, k);
      MirrorTailBack(y[1..], k + 1);
      var n := |MirrorHost| - k;
      assert MirrorHost[k..] == [MirrorHost[k]] + MirrorHost[k + 1..];
      assert y[..n] == [y[0]] + y[1..][..n - 1];
    }
  }

  lemma MirrorTailBackIf(y: string, k: nat)
    requires 1 <= k <= |MirrorHost|
    ensures StartsWith(ReplaceAll(y, MirrorHost, CanonicalHost), MirrorHost[k..]) ==> StartsWith(y, MirrorHost[k..])
  {
    if StartsWith(ReplaceAll(y, MirrorHost, CanonicalHost), MirrorHost[k..]) {
      MirrorTailBack(y, k);
    }
  }

  /** A text starts with `p` when its first character is `p`'s and its
      tail starts with the tail of `p`. */
  lemma StartsWithCons(x: string, p: string)
    requires x != [] && p != []
    ensures x[0] == p[0] && StartsWith(x[1..], p[1..]) ==> StartsWith(x, p)
  {
    if x[0] == p[0] && StartsWith(x[1..], p[1..]) {
      assert x[..|p|] == [x[0]] + x[1..][..|p| - 1];
    }
  }

  /** After the rewrite no mirror host name is left: every occurrence was
      replaced, and no new one appears across the replaced pieces. */
  lemma {:induction false} MirrorGone(x: string)
    ensures !Contains(ReplaceAll(x, MirrorHost, CanonicalHost), MirrorHost)
    decreases |x|
  {
    HostNameFacts();
    var r := ReplaceAll(x, MirrorHost, CanonicalHost);
    if x == [] {
    } else if StartsWith(x, MirrorHost) {
      var t := ReplaceAll(x[14..], MirrorHost, CanonicalHost);
      MirrorGone(x[14..]);
      assert r == CanonicalHost + t;
      forall i | 0 <= i <= |r| - 14
        ensures !OccursAt(r, MirrorHost, i)
      {
        if i >= 11 {
          assert r[i..i + 14] == t[i - 11..i - 11 + 14];
          assert !OccursAt(t, MirrorHost, i - 11);
        } else {
          assert r[i] == CanonicalHost[i] && r[7] == '.';
        }
      }
    } else {
      var t := ReplaceAll(x[1..], MirrorHost, CanonicalHost);
      MirrorGone(x[1..]);
      assert r == [x[0]] + t;
      MirrorTailBackIf(x[1..], 1);
      StartsWithCons(x, MirrorHost);
      forall i | 0 <= i <= |r| - 14
        ensures !OccursAt(r, MirrorHost, i)
      {
        if i >= 1 {
          assert r[i..i + 14] == t[i - 1..i - 1 + 14];
          assert !OccursAt(t, MirrorHost, i - 1);
        } else {
          assert r[1..14] == t[..13];
          assert r[0] == x[0];
        }
      }
    }
  }

  /** `scheme://netloc` followed by the path: what survives of a parsed URL. */
  function BaseUrl(p: ParsedUrl): string {
    p.scheme + "://" + p.netloc + p.path
  }

  /** The base of a parsed URL holds no `?` and no `#`. */
  lemma BaseUrlNoQueryOrFragment(p: ParsedUrl)
    requires AllSchemeChars(p.scheme) && NoneIn(p.netloc, NetlocEnd) && '#' !in p.path && '?' !in p.path
    ensures '?' !in BaseUrl(p) && '#' !in BaseUrl(p)
  {
    var b := BaseUrl(p);
    assert forall k :: 0 <= k < |p.scheme| ==> p.scheme[k] != '?' && p.scheme[k] != '#';
    assert forall k :: 0 <= k < |p.netloc| ==> p.netloc[k] != '?' && p.netloc[k] != '#';
    assert forall k :: 0 <= k < |b| ==> b[k] != '?' && b[k] != '#' by {
      forall k | 0 <= k < |b|
        ensures b[k] != '?' && b[k] != '#'
      {
        if k >= |b| - |p.path| {
          assert b[k] == p.path[k - (|b| - |p.path|)];
        }
      }
    }
  }

  /** The mirror host name rewritten to the canonical one; a text without
      it is kept as it is. */
  function RewriteMirror(base: string): (r: string)
    ensures !Contains(r, MirrorHost)
    ensures '?' !in base ==> '?' !in r
    ensures '#' !in base ==> '#' !in r
  {
    if Contains(base, MirrorHost) then
      ReplaceAllKeepsOut(base, MirrorHost, CanonicalHost, '?');
      ReplaceAllKeepsOut(base, MirrorHost, CanonicalHost, '#');
      MirrorGone(base);
      ReplaceAll(base, MirrorHost, CanonicalHost)
    else base
  }

  /** `normalize_url(url)`: only scheme, network location and path are
      kept, and the mirror host name is rewritten to the canonical one.
      The `ValueError` of `urlparse` is passed on. */
  function NormalizeUrl(url: string): (r: Result<string>)
    ensures r.Failure? <==> Parse(url).Failure?
    ensures r.Failure? ==> r.error == "Invalid IPv6 URL"
    ensures r.Success? ==> '?' !in r.value && '#' !in r.value
    ensures r.Success? ==> !Contains(r.value, MirrorHost)
  {
    match Parse(url)
    case Failure(e) => Failure(e)
    case Success(p) =>
      BaseUrlNoQueryOrFragment(p);
      Success(RewriteMirror(BaseUrl(p)))
  }

  /** For a URL built from well-formed parts, normalising keeps scheme,
      network location and path and drops query and fragment; every
      mirror host name among them is rewritten. */
  lemma NormalizeCompose(scheme: string, netloc: string, path: string, query: string, fragment: string)
    requires WellFormed(scheme, netloc, path, query, fragment)
    ensures NormalizeUrl(Compose(scheme, netloc, path, query, fragment))
            == Success(ReplaceAll(scheme + "://" + netloc + path, MirrorHost, CanonicalHost))
  {
    ParseCompose(scheme, netloc, path, query, fragment);
    var base := scheme + "://" + netloc + path;
    if !Contains(base, MirrorHost) {
      ReplaceAllAbsent(base, MirrorHost, CanonicalHost);
    }
  }

  /** `extract_surl_parameter(url)`: the first non-blank `surl` value of the
      query, else the segment after `/s/`, else nothing. */
  function ExtractSurlParameter(url: string): (r: Result<Option<string>>)
    ensures r.Failure? <==> Parse(url).Failure?
  {
    match Parse(url)
    case Failure(e) => Failure(e)
    case Success(p) => Success(SurlOf(p))
  }

  /** The short id of a parsed URL: the first `surl` value of its query,
      else the segment after `/s/` in its path. */
  function SurlOf(p: ParsedUrl): Option<string> {
    var fromQuery := if p.query != [] then FirstValue(QueryFields(p.query), "surl") else None;
    if fromQuery.Some? then fromQuery
    else
      var parts := SplitOn(p.path, '/');
      if |parts| >= 3 && parts[1] == "s" then Some(parts[2]) else None
  }

  /** A segment followed by nothing or by more segments is the first one. */
  lemma FirstSegment(id: string, rest: string)
    requires '/' !in id && (rest == [] || rest[0] == '/')
    ensures SplitOn(id + rest, '/')[0] == id
  {
    if rest == [] {
      assert id + rest == id;
      SplitOnNoSeparator(id, '/');
    } else {
      assert id + rest == id + ['/'] + rest[1..];
      SplitOnFirst(id, '/', rest[1..]);
    }
  }

  /** The segments of `/s/<id>` followed by nothing or by more segments. */
  lemma ShareSegments(id: string, rest: string)
    requires '/' !in id && (rest == [] || rest[0] == '/')
    ensures var parts := SplitOn("/s/" + id + rest, '/');
            |parts| >= 3 && parts[1] == "s" && parts[2] == id
  {
    var t := id + rest;
    var empty: string := [];
    var s: string := "s";
    var u := s + ['/'] + t;
    assert "/s/" + id + rest == empty + ['/'] + u;
    calc {
      SplitOn(empty + ['/'] + u, '/');
    == { SplitOnFirst(empty, '/', u); }
      [empty] + SplitOn(u, '/');
    == { SplitOnFirst(s, '/', t); }
      [empty] + ([s] + SplitOn(t, '/'));
    }
    FirstSegment(id, rest);
  }

  /** A share link `scheme://netloc/s/<id>...` without a `surl` field in its
      query yields `<id>`. */
  lemma SurlFromSharePath(scheme: string, netloc: string, id: string, rest: string, query: string, fragment: string)
    requires WellFormed(scheme, netloc, "/s/" + id + rest, query, fragment)
    requires '/' !in id && (rest == [] || rest[0] == '/')
    requires FirstValue(QueryFields(query), "surl").None?
    ensures ExtractSurlParameter(Compose(scheme, netloc, "/s/" + id + rest, query, fragment)) == Success(Some(id))
  {
    ParseCompose(scheme, netloc, "/s/" + id + rest, query, fragment);
    ShareSegments(id, rest);
  }

  /** A path whose second `/`-segment is `s` starts with `/s/`. */
  lemma ShareSegmentsStart(path: string)
    requires path == [] || path[0] == '/'
    requires var parts := SplitOn(path, '/'); |parts| >= 3 && parts[1] == "s"
    ensures StartsWith(path, "/s/")
  {
    if path == [] {
      SplitOnNoSeparator(path, '/');
    } else {
      var t := path[1..];
      var empty: string := [];
      assert path == empty + ['/'] + t;
      SplitOnFirst(empty, '/', t);
      assert SplitOn(path, '/') == [empty] + SplitOn(t, '/');
      if '/' !in t {
        SplitOnNoSeparator(t, '/');
      } else {
        var i := IndexOfChar(t, '/');
        assert t[..i] == "s";
        assert path[..3] == "/s/" by {
          assert path[1] == t[0] && path[2] == t[1];
        }
      }
    }
  }

  /** A link with no non-blank `surl` field whose path does not start with
      `/s/` yields no short id. */
  lemma SurlAbsent(scheme: string, netloc: string, path: string, query: string, fragment: string)
    requires WellFormed(scheme, netloc, path, query, fragment)
    requires FirstValue(QueryFields(query), "surl").None?
    requires !StartsWith(path, "/s/")
    ensures ExtractSurlParameter(Compose(scheme, netloc, path, query, fragment)) == Success(None)
  {
    ParseCompose(scheme, netloc, path, query, fragment);
    var p := ParsedUrl(scheme, netloc, path, [], query, fragment);
    var parts := SplitOn(path, '/');
    if |parts| >= 3 && parts[1] == "s" {
      ShareSegmentsStart(path);
    }
    assert SurlOf(p) == None;
  }

  /** A `surl` field in the query wins over the path. */
  lemma SurlFromQuery(scheme: string, netloc: string, path: string, query: string, fragment: string, v: string)
    requires WellFormed(scheme, netloc, path, query, fragment)
    requires FirstValue(QueryFields(query), "surl") == Some(v)
    ensures ExtractSurlParameter(Compose(scheme, netloc, path, query, fragment)) == Success(Some(v))
  {
    ParseCompose(scheme, netloc, path, query, fragment);
    SurlOfQuery(ParsedUrl(scheme, netloc, path, [], query, fragment));
  }

  /** A `surl` field in the query wins over the path. */
  lemma SurlOfQuery(p: ParsedUrl)
    requires FirstValue(QueryFields(p.query), "surl").Some?
    ensures SurlOf(p) == FirstValue(QueryFields(p.query), "surl")
  {
    var none: string := [];
    assert SplitOn(none, '&') == [none];
    assert QueryFields(none) == [];
  }

  /** `is_direct_download_url(url)`: the `d-<node>.terabox.com/file/` host
      pattern matches, and so does at least one of `size=`, `fin=...mp4`
      and `fid=`. */
  predicate IsDirectDownloadUrl(url: string) {
    HasHost(url) && (HasSizeMarker(url) || HasFinMarker(url) || HasFidMarker(url))
  }

  /** Without `d-` anywhere (every share link of the bot's domains) a URL is
      never taken for a direct download link. */
  lemma NoNodeNotDirect(url: string)
    requires !Contains(url, "d-")
    ensures !IsDirectDownloadUrl(url)
  {
    assert forall i | 0 <= i <= |url| :: !HostAt(url, i) by {
      forall i | 0 <= i <= |url|
        ensures !HostAt(url, i)
      {
        assert OccursAt(url, "d-", i) ==> i <= |url| - 2;
      }
    }
  }

  /** A host match plus a `size=` field makes a direct download link. */
  lemma SizeMarkedHostIsDirect(url: string, i: nat, j: nat)
    requires i <= |url| && HostAt(url, i)
    requires j <= |url| && CaptureAt(url, "size=", Digits, j)
    ensures IsDirectDownloadUrl(url)
  {
  }

  /** `extract_filename_from_url(url)`: the unquoted `fn=` value, else the
      unquoted `fin=` value, else nothing. */
  function ExtractFilenameFromUrl(url: string): (r: Option<string>)
    ensures r.None? <==> Capture(url, "fn=", NotAmpersand).None? && Capture(url, "fin=", NotAmpersand).None?
  {
    match Capture(url, "fn=", NotAmpersand)
    case Some(g) => Some(Percent.Unquote(g))
    case None =>
      match Capture(url, "fin=", NotAmpersand)
      case Some(g) => Some(Percent.Unquote(g))
      case None => None
  }

  /** A quoted name never holds `&`, so it is a whole `[^&]+` group. */
  lemma QuotedField(name: string)
    requires name != []
    ensures Percent.Quote(name) != []
    ensures forall j :: 0 <= j < |Percent.Quote(name)| ==> InClass(Percent.Quote(name)[j], NotAmpersand)
  {
    Percent.QuoteChars(name);
  }

  /** A name written into the first `fn=` field with `quote(name, safe='')`
      and ended by `&` or the end of the URL comes back unchanged. */
  lemma FilenameRoundTrip(a: string, name: string, rest: string)
    requires !Contains(a, "fn=") && name != []
    requires rest == [] || rest[0] == '&'
    ensures ExtractFilenameFromUrl(a + "fn=" + Percent.Quote(name) + rest) == Some(name)
  {
    QuotedField(name);
    CaptureAfter(a, "fn=", NotAmpersand, Percent.Quote(name), rest);
    Percent.UnquoteQuote(name);
  }

  /** Without any `fn=` the first `fin=` field is used the same way. */
  lemma FilenameFromFin(a: string, name: string, rest: string)
    requires !Contains(a, "fin=") && name != []
    requires rest == [] || rest[0] == '&'
    requires !Contains(a + "fin=" + Percent.Quote(name) + rest, "fn=")
    ensures ExtractFilenameFromUrl(a + "fin=" + Percent.Quote(name) + rest) == Some(name)
  {
    var url := a + "fin=" + Percent.Quote(name) + rest;
    QuotedField(name);
    CaptureAfter(a, "fin=", NotAmpersand, Percent.Quote(name), rest);
    Percent.UnquoteQuote(name);
    assert Capture(url, "fn=", NotAmpersand).None? by {
      forall i | 0 <= i <= |url|
        ensures !CaptureAt(url, "fn=", NotAmpersand, i)
      {
        assert OccursAt(url, "fn=", i) ==> i <= |url| - 3;
      }
    }
  }

  /** `int(re.search(r'size=(\d+)', url).group(1))`, when it matches. */
  function SizeParameter(url: string): (r: Option<nat>)
    ensures r.Some? <==> HasSizeMarker(url)
  {
    match Capture(url, "size=", Digits)
    case Some(g) => Some(ParseDigits(g))
    case None => None
  }

  /** The first `size=` field, written as `str(n)` and ended by a
      non-digit or the end of the URL, reads back as `n`. */
  lemma SizeRoundTrip(a: string, n: nat, rest: string)
    requires !Contains(a, "size=")
    requires rest == [] || !IsDigit(rest[0])
    ensures SizeParameter(a + "size=" + NatToString(n) + rest) == Some(n)
  {
    CaptureAfter(a, "size=", Digits, NatToString(n), rest);
    ParseNatToString(n);
  }

  /** `a / d` rounded to the nearest integer, ties to the even neighbour:
      how `format(x, '.2f')` rounds a value it holds exactly. */
  function RoundHalfEven(a: nat, d: nat): nat
    requires d > 0
  {
    var q0, r := a / d, a % d;
    if 2 * r < d then q0
    else if 2 * r > d then q0 + 1
    else if q0 % 2 == 0 then q0
    else q0 + 1
  }

  /** The rounded quotient is a nearest integer to `a / d`, and the even
      one of the two when `a / d` lies half-way between them. */
  lemma RoundHalfEvenNearest(a: nat, d: nat)
    requires d > 0
    ensures var q := RoundHalfEven(a, d);
            2 * (a - q * d) <= d && 2 * (q * d - a) <= d &&
            (2 * a == (2 * q - 1) * d || 2 * a == (2 * q + 1) * d ==> q % 2 == 0)
  {
    DivMod(a, d);
    RoundingFacts(a, d, a / d, a % d, RoundHalfEven(a, d));
  }

  lemma DivMod(a: nat, d: nat)
    requires d > 0
    ensures a == (a / d) * d + a % d && a % d < d
  {
  }

  /** The arithmetic behind `RoundHalfEven`, with every product spelled
      out. */
  lemma RoundingFacts(a: nat, d: nat, q0: nat, r: nat, q: nat)
    requires d > 0 && a == q0 * d + r && r < d
    requires q == q0 || q == q0 + 1
    requires 2 * r < d ==> q == q0
    requires 2 * r > d ==> q == q0 + 1
    requires 2 * r == d ==> q % 2 == 0
    ensures 2 * (a - q * d) <= d && 2 * (q * d - a) <= d
    ensures 2 * a == (2 * q - 1) * d || 2 * a == (2 * q + 1) * d ==> q % 2 == 0
  {
    var p := q0 * d;
    assert (q0 + 1) * d == p + d;
    assert (2 * q0 - 1) * d == 2 * p - d;
    assert (2 * q0 + 1) * d == 2 * p + d;
    assert (2 * (q0 + 1) - 1) * d == 2 * p + d;
    assert (2 * (q0 + 1) + 1) * d == 2 * p + 3 * d;
  }

  /** A count of hundredths written with two decimals: `format(h / 100, '.2f')`. */
  function Hundredths(h: nat): (s: string)
    ensures ' ' !in s
  {
    NatToString(h / 100) + "." + [DigitChar(h % 100 / 10), DigitChar(h % 10)]
  }

  /** Reading a `d+.dd` string back as a count of hundredths. */
  function ReadHundredths(s: string): Option<nat> {
    var parts := SplitOn(s, '.');
    if |parts| == 2 && parts[0] != [] && AllDigits(parts[0]) && |parts[1]| == 2 && AllDigits(parts[1])
    then Some(ParseDigits(parts[0]) * 100 + ParseDigits(parts[1]))
    else None
  }

  /** A two-digit string reads as its value. */
  lemma ParseTwoDigits(x: nat, y: nat)
    requires x < 10 && y < 10
    ensures ParseDigits([DigitChar(x), DigitChar(y)]) == 10 * x + y
  {
    var s := [DigitChar(x), DigitChar(y)];
    var one := [DigitChar(x)];
    assert s[..1] == one && s[1] == DigitChar(y);
    assert one[..0] == [] && one[0] == DigitChar(x);
    assert DigitValue(DigitChar(x)) == x && DigitValue(DigitChar(y)) == y;
    assert ParseDigits(one) == x;
  }

  /** Two decimals read back as the count they were written from. */
  lemma ReadHundredthsOf(h: nat)
    ensures ReadHundredths(Hundredths(h)) == Some(h)
  {
    var whole := NatToString(h / 100);
    var frac := [DigitChar(h % 100 / 10), DigitChar(h % 10)];
    assert '.' !in whole by {
      assert forall k :: 0 <= k < |whole| ==> IsDigit(whole[k]);
    }
    assert '.' !in frac;
    assert Hundredths(h) == whole + ['.'] + frac;
    calc {
      SplitOn(whole + ['.'] + frac, '.');
    == { SplitOnFirst(whole, '.', frac); }
      [whole] + SplitOn(frac, '.');
    == { SplitOnNoSeparator(frac, '.'); }
      [whole, frac];
    }
    ParseNatToString(h / 100);
    ParseTwoDigits(h % 100 / 10, h % 10);
    assert h == h / 100 * 100 + (10 * (h % 100 / 10) + h % 10);
  }

  /** The scale and unit name `format_file_size` picks for `n`. */
  function UnitOf(n: int): (u: (nat, string))
    ensures u.0 > 0 && ' ' !in u.1
    ensures u.1 == "B" <==> n < 1024
    ensures n >= 1024 ==> 1024 <= u.0 <= n
    ensures u.1 != "GB" ==> n < 1024 * u.0
  {
    if n < 1024 then (1, "B")
    else if n < 1024 * 1024 then (1024, "KB")
    else if n < 1024 * 1024 * 1024 then (1024 * 1024, "MB")
    else (1024 * 1024 * 1024, "GB")
  }

  /** `format_file_size(n)`: whole bytes below 1024, otherwise the quotient
      by the unit with two decimals. */
  function FormatFileSize(n: int): (r: string)
    ensures EndsWith(r, " " + UnitOf(n).1)
  {
    var (scale, unit) := UnitOf(n);
    var number := if n < 1024 then IntToString(n) else Hundredths(RoundHalfEven(100 * n, scale));
    assert number + " " + unit == number + (" " + unit);
    number + " " + unit
  }

  /** `x + " " + unit` splits back into `x` and `unit`. */
  lemma SplitNumberUnit(x: string, unit: string)
    requires ' ' !in x && ' ' !in unit
    ensures SplitOn(x + " " + unit, ' ') == [x, unit]
  {
    SplitOnFirst(x, ' ', unit);
    SplitOnNoSeparator(unit, ' ');
    assert x + " " + unit == x + [' '] + unit;
  }

  /** What a formatted size means: below 1024 the count of bytes itself;
      otherwise a number of hundredths of the chosen unit that is nearest
      to the exact quotient, shown between 1.00 and 1024.00, with the
      unit chosen so that the whole part is below 1024 bytes' worth of the
      next unit. */
  lemma FormatFileSizeMeaning(n: nat)
    ensures var (scale, unit) := UnitOf(n);
            var parts := SplitOn(FormatFileSize(n), ' ');
            |parts| == 2 && parts[1] == unit &&
            (n < 1024 ==> AllDigits(parts[0]) && ParseDigits(parts[0]) == n) &&
            (n >= 1024 ==>
              ReadHundredths(parts[0]).Some? &&
              var h := ReadHundredths(parts[0]).value;
              2 * (100 * n - h * scale) <= scale && 2 * (h * scale - 100 * n) <= scale &&
              (unit != "GB" ==> 100 <= h <= 102400))
  {
    var (scale, unit) := UnitOf(n);
    if n < 1024 {
      SplitNumberUnit(NatToString(n), unit);
      ParseNatToString(n);
    } else {
      var h := RoundHalfEven(100 * n, scale);
      RoundHalfEvenNearest(100 * n, scale);
      SplitNumberUnit(Hundredths(h), unit);
      ReadHundredthsOf(h);
      if unit != "GB" {
        HundredthsRange(n, scale, h);
      }
    }
  }

  /** Rounding keeps the shown number between 1.00 and 1024.00 units. */
  lemma HundredthsRange(n: nat, scale: nat, h: nat)
    requires scale > 0 && scale <= n < 1024 * scale
    requires 2 * (100 * n - h * scale) <= scale && 2 * (h * scale - 100 * n) <= scale
    ensures 100 <= h <= 102400
  {
    if h < 100 {
      MulMono(h, 99, scale);
    }
    if h > 102400 {
      MulMono(102401, h, scale);
    }
  }

  lemma MulMono(x: nat, y: nat, c: nat)
    requires x <= y
    ensures x * c <= y * c
  {
  }
}
