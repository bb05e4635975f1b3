/** `extract_url_from_text`: picking the Terabox link out of a chat
    message, and the domain check that decides whether a message is treated
    as a link at all. */
module BotLinks {
  import opened Wrappers
  import opened Text
  import Patterns

  /** The domains `extract_url_from_text` looks for in a word. */
  const LinkDomains: seq<string> := [
    "terabox.com", "teraboxapp.com", "1024terabox.com", "terabox.app", "www.terabox.app",
    "terabox.hnn.workers.dev", "dm.terabox.com", "d-jp02-cpt.terabox.com", "d-jp02-zen.terabox.com",
    "teraboxshare.com"
  ]

  /** The domains `process_message` looks for in the whole message. */
  const GateDomains: seq<string> := [
    "terabox.com", "teraboxapp.com", "1024terabox.com", "terabox.app", "www.terabox.app",
    "terabox.hnn.workers.dev", "dm.terabox.com", "teraboxshare.com"
  ]

  /** `any(domain in s for domain in domains)`. */
  predicate Mentions(s: string, domains: seq<string>) {
    exists k | 0 <= k < |domains| :: Contains(s, domains[k])
  }

  /** The characters stripped from the end of a word, in the order tried. */
  const TrailingMarks: string := ".,!?)"

  /** `if url.endswith(c): url = url[:-1]`. */
  function StripMark(url: string, c: char): (r: string) {
    if EndsWith(url, [c]) then url[..|url| - 1] else url
  }

  /** The pass over `TrailingMarks` from mark `k` on, each mark stripped
      at most once, in order. */
  function StripFrom(url: string, k: nat): (r: string)
    requires k <= |TrailingMarks|
    ensures StartsWith(url, r) && |url| - (|TrailingMarks| - k) <= |r|
    decreases |TrailingMarks| - k
  {
    if k == |TrailingMarks| then url
    else
      var next := StripMark(url, TrailingMarks[k]);
      var r := StripFrom(next, k + 1);
      assert url[..|next|][..|r|] == url[..|r|];
      r
  }

  /** The whole stripping pass. */
  function StripTrailing(word: string): (r: string)
    ensures StartsWith(word, r) && |word| - 5 <= |r|
  {
    StripFrom(word, 0)
  }

  /** Index of the first word, from `from` on, that names a link domain. */
  function FirstMention(words: seq<string>, from: nat): (r: Option<nat>)
    requires from <= |words|
    ensures r.None? ==> forall j :: from <= j < |words| ==> !Mentions(words[j], LinkDomains)
    ensures r.Some? ==> from <= r.value < |words| && Mentions(words[r.value], LinkDomains)
    ensures r.Some? ==> forall j :: from <= j < r.value ==> !Mentions(words[j], LinkDomains)
    decreases |words| - from
  {
    if from == |words| then None
    else if Mentions(words[from], LinkDomains) then Some(from)
    else FirstMention(words, from + 1)
  }

  /** What `extract_url_from_text(text)` returns: the first direct download
      link if there is one, else the first word naming a link domain with
      its trailing punctuation stripped, else `None`. */
  function UrlFromText(text: string): Option<string> {
    match Patterns.DirectLink(text)
    case Some(u) => Some(u)
    case None =>
      var words := Words(text);
      match FirstMention(words, 0)
      case None => None
      case Some(k) => Some(StripTrailing(words[k]))
  }

  /** The loop of `extract_url_from_text` that strips `.`, `,`, `!`, `?`
      and `)` from the end of the chosen word, each at most once. */
  method StripTrailingMarks(word: string) returns (url: string)
    ensures url == StripTrailing(word)
  {
    url := word;
    var k := 0;
    while k < |TrailingMarks|
      invariant 0 <= k <= |TrailingMarks|
      invariant StripFrom(url, k) == StripTrailing(word)
    {
      if EndsWith(url, [TrailingMarks[k]]) {
        url := url[..|url| - 1];
      }
      k := k + 1;
    }
  }

  /** `extract_url_from_text(text)`: the direct download pattern first,
      then the loop over the words. */
  method ExtractUrlFromText(text: string) returns (url: Option<string>)
    ensures url == UrlFromText(text)
  {
    var direct := Patterns.DirectLink(text);
    if direct.Some? {
      return direct;
    }
    var words := Words(text);
    var i := 0;
    while i < |words|
      invariant 0 <= i <= |words|
      invariant FirstMention(words, i) == FirstMention(words, 0)
    {
      if Mentions(words[i], LinkDomains) {
        var cleaned := StripTrailingMarks(words[i]);
        return Some(cleaned);
      }
      i := i + 1;
    }
    return None;
  }

  /** The stripping pass tries each mark once, in order: a `.` before a
      `)` survives, a `?` before a `)` too. */
  lemma StripTrailingOrder()
    ensures StripTrailing("x).") == "x"
    ensures StripTrailing("x?)") == "x?"
  {
    DotBeforeParen();
    QuestionBeforeParen();
  }

  lemma MarksInOrder()
    ensures TrailingMarks[0] == '.' && TrailingMarks[1] == ',' && TrailingMarks[2] == '!'
    ensures TrailingMarks[3] == '?' && TrailingMarks[4] == ')'
  {
  }

  lemma DotBeforeParen()
    ensures StripTrailing("x).") == "x"
  {
    MarksInOrder();
    var (w, p, x) := ("x).", "x)", "x");
    assert StripMark(w, '.') == p;
    assert StripMark(p, ',') == p && StripMark(p, '!') == p && StripMark(p, '?') == p;
    assert StripMark(p, ')') == x;
    calc {
      StripTrailing(w);
      StripFrom(w, 0);
      StripFrom(p, 1);
      StripFrom(p, 2);
      StripFrom(p, 3);
      StripFrom(p, 4);
      StripFrom(x, 5);
    }
  }

  lemma QuestionBeforeParen()
    ensures StripTrailing("x?)") == "x?"
  {
    MarksInOrder();
    var (w, x) := ("x?)", "x?");
    assert StripMark(w, '.') == w && StripMark(w, ',') == w && StripMark(w, '!') == w;
    assert StripMark(w, '?') == w;
    assert StripMark(w, ')') == x;
    calc {
      StripTrailing(w);
      StripFrom(w, 0);
      StripFrom(w, 1);
      StripFrom(w, 2);
      StripFrom(w, 3);
      StripFrom(w, 4);
      StripFrom(x, 5);
    }
  }

  /** When the text holds a direct download link anywhere, the leftmost one
      is returned, whole up to the next whitespace, whatever words naming
      a domain come before it. */
  lemma UrlFromTextDirect(text: string, i: int)
    requires Patterns.DirectLinkAt(text, i)
    ensures exists j :: 0 <= j <= i && Patterns.DirectLinkAt(text, j) &&
              var e := Patterns.DirectLinkEnd(text, j);
              UrlFromText(text) == Some(text[j..e]) && (e == |text| || IsSpace(text[e]))
  {
    var j := Patterns.FirstDirectLink(text, 0).value;
    assert UrlFromText(text) == Some(text[j..Patterns.DirectLinkEnd(text, j)]);
  }

  /** The characters of a host name. */
  predicate HostName(d: string) {
    forall j | 0 <= j < |d| :: 'a' <= d[j] <= 'z' || '0' <= d[j] <= '9' || d[j] == '.' || d[j] == '-'
  }

  lemma ShortDomainsHostNames()
    ensures HostName(LinkDomains[0]) && HostName(LinkDomains[1]) && HostName(LinkDomains[2]) && HostName(LinkDomains[3])
  {
  }

  lemma MiddleDomainsHostNames()
    ensures HostName(LinkDomains[4]) && HostName(LinkDomains[6]) && HostName(LinkDomains[9])
  {
  }

  lemma LongDomainsHostNames()
    ensures HostName(LinkDomains[5]) && HostName(LinkDomains[8])
  {
  }

  /** Link domains are solid: no whitespace, at least 11 characters. */
  lemma LinkDomainsSolid()
    ensures forall k :: 0 <= k < |LinkDomains| ==>
              |LinkDomains[k]| >= 11 && forall j :: 0 <= j < |LinkDomains[k]| ==> !IsSpace(LinkDomains[k][j])
  {
    LinkDomainsHostNames();
    LinkDomainLengths();
    forall k | 0 <= k < |LinkDomains|
      ensures forall j :: 0 <= j < |LinkDomains[k]| ==> !IsSpace(LinkDomains[k][j])
    {
      HostNameHasNoSpace(LinkDomains[k]);
    }
  }

  lemma LinkDomainsHostNames()
    ensures forall k :: 0 <= k < |LinkDomains| ==> HostName(LinkDomains[k])
  {
    ShortDomainsHostNames();
    MiddleDomainsHostNames();
    LongDomainsHostNames();
    assert HostName(LinkDomains[7]);
  }

  lemma LinkDomainLengths()
    ensures forall k :: 0 <= k < |LinkDomains| ==> |LinkDomains[k]| >= 11
  {
  }

  lemma HostNameHasNoSpace(d: string)
    requires HostName(d)
    ensures forall j :: 0 <= j < |d| ==> !IsSpace(d[j])
  {
  }

  /** A word of the text names a link domain exactly when the text does. */
  lemma MentionedInWords(text: string)
    ensures (exists w :: w in Words(text) && Mentions(w, LinkDomains)) <==> Mentions(text, LinkDomains)
  {
    if exists w :: w in Words(text) && Mentions(w, LinkDomains) {
      var w :| w in Words(text) && Mentions(w, LinkDomains);
      WordMentionInText(text, w);
    }
    if Mentions(text, LinkDomains) {
      var w := TextMentionInWord(text);
      assert w in Words(text) && Mentions(w, LinkDomains);
    }
  }

  lemma WordMentionInText(text: string, w: string)
    requires w in Words(text) && Mentions(w, LinkDomains)
    ensures Mentions(text, LinkDomains)
  {
    var k :| 0 <= k < |LinkDomains| && Contains(w, LinkDomains[k]);
    WordsInText(text, w);
    var i :| OccursAt(text, w, i);
    ContainsThroughPiece(text, w, i, LinkDomains[k]);
  }

  lemma TextMentionInWord(text: string) returns (w: string)
    requires Mentions(text, LinkDomains)
    ensures w in Words(text) && Mentions(w, LinkDomains)
  {
    var k :| 0 <= k < |LinkDomains| && Contains(text, LinkDomains[k]);
    var d := LinkDomains[k];
    var i :| 0 <= i <= |text| - |d| && OccursAt(text, d, i);
    LinkDomainsSolid();
    WordsKeepInfix(text, d, i);
    w :| w in Words(text) && Contains(w, d);
    assert 0 <= k < |LinkDomains| && Contains(w, LinkDomains[k]);
  }

  /** `None` comes back exactly when the text holds no direct download link
      and names no link domain anywhere. */
  lemma UrlFromTextNone(text: string)
    ensures UrlFromText(text).None? <==>
              (forall i :: 0 <= i <= |text| ==> !Patterns.DirectLinkAt(text, i)) && !Mentions(text, LinkDomains)
  {
    if Patterns.DirectLink(text).None? {
      var words := Words(text);
      MentionedInWords(text);
      if FirstMention(words, 0).None? {
        assert forall w :: w in words ==> !Mentions(w, LinkDomains);
      } else {
        assert words[FirstMention(words, 0).value] in words;
      }
    }
  }

  /** Word `k` is the first to name a link domain. */
  predicate FirstNaming(words: seq<string>, k: int) {
    0 <= k < |words| && Mentions(words[k], LinkDomains)
    && forall j :: 0 <= j < k ==> !Mentions(words[j], LinkDomains)
  }

  lemma StrippedFirstNaming(words: seq<string>, u: string)
    requires FirstMention(words, 0).Some? && u == StripTrailing(words[FirstMention(words, 0).value])
    ensures exists k :: FirstNaming(words, k) && StartsWith(words[k], u) && |words[k]| - 5 <= |u|
  {
    assert FirstNaming(words, FirstMention(words, 0).value);
  }

  /** Without a direct download link, what comes back is a word of the text
      that names a link domain, cut by at most five characters at its end,
      and no earlier word names one. */
  lemma UrlFromTextWord(text: string)
    requires Patterns.DirectLink(text).None? && UrlFromText(text).Some?
    ensures exists k :: FirstNaming(Words(text), k) &&
              StartsWith(Words(text)[k], UrlFromText(text).value) && |Words(text)[k]| - 5 <= |UrlFromText(text).value|
  {
    var words := Words(text);
    assert UrlFromText(text).value == StripTrailing(words[FirstMention(words, 0).value]);
    StrippedFirstNaming(words, UrlFromText(text).value);
  }

  /** Every gate domain is also a link domain. */
  lemma GateDomainsListed()
    ensures forall k :: 0 <= k < |GateDomains| ==> GateDomains[k] in LinkDomains
  {
    assert GateDomains[7] == LinkDomains[9];
    assert forall k :: 0 <= k < 7 ==> GateDomains[k] == LinkDomains[k];
  }

  /** A message that passes the domain check always yields a non-empty
      link, so the "could not find a valid Terabox link" reply is never
      given. */
  lemma GatedTextHasUrl(text: string)
    requires Mentions(text, GateDomains)
    ensures UrlFromText(text).Some? && UrlFromText(text).value != []
  {
    var g :| 0 <= g < |GateDomains| && Contains(text, GateDomains[g]);
    GateDomainsListed();
    var k :| 0 <= k < |LinkDomains| && LinkDomains[k] == GateDomains[g];
    assert Mentions(text, LinkDomains);
    UrlFromTextNone(text);
    if Patterns.DirectLink(text).None? {
      var words := Words(text);
      var m := FirstMention(words, 0).value;
      var w := words[m];
      var d :| 0 <= d < |LinkDomains| && Contains(w, LinkDomains[d]);
      LinkDomainsSolid();
      ContainsLength(w, LinkDomains[d]);
      assert |StripTrailing(w)| >= |w| - 5;
    }
  }
}
