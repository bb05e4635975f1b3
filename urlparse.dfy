/** The two pieces of `urllib.parse` that the link resolver calls:
    `urlparse` (its `urlsplit` step followed by `_splitparams`) and
    `parse_qsl`, which `parse_qs` folds into a dictionary.
    `urlsplit` is modelled as CPython 3.12 has it: leading C0 controls and
    spaces are stripped first, and a scheme must start with an ASCII
    letter. Releases before these changes do neither. */
module UrlParse {
  import opened Wrappers
  import opened Text
  import Percent

  /** The six fields of a `ParseResult`. */
  datatype ParsedUrl = ParsedUrl(
    scheme: string, netloc: string, path: string,
    params: string, query: string, fragment: string)

  /** No character of `s` is in `cs`. */
  predicate NoneIn(s: string, cs: set<char>) {
    forall i :: 0 <= i < |s| ==> s[i] !in cs
  }

  /** Index of the first character of `s` that is in `cs`, or `|s|`. */
  function FindFirst(s: string, cs: set<char>): (i: nat)
    ensures i <= |s| && NoneIn(s[..i], cs)
    ensures i < |s| ==> s[i] in cs
  {
    if s == [] || s[0] in cs then 0 else 1 + FindFirst(s[1..], cs)
  }

  /** A prefix free of `cs` in front of a piece that starts with a member of
      `cs` (or is empty) is exactly what `FindFirst` skips. */
  lemma FindFirstAfter(a: string, b: string, cs: set<char>)
    requires NoneIn(a, cs) && (b == [] || b[0] in cs)
    ensures FindFirst(a + b, cs) == |a|
  {
    if a != [] {
      var s := a + b;
      assert s[0] == a[0] && s[0] !in cs;
      assert s[1..] == a[1..] + b;
      forall i | 0 <= i < |a| - 1
        ensures a[1..][i] !in cs
      {
        assert a[1..][i] == a[i + 1];
      }
      FindFirstAfter(a[1..], b, cs);
      assert FindFirst(s, cs) == 1 + FindFirst(s[1..], cs);
    }
  }

  /** `s.find(c)` for a character, as `None` when it is absent. */
  function Find(s: string, c: char): (r: Option<nat>)
    ensures r.None? <==> c !in s
    ensures r.Some? ==> r.value < |s| && s[r.value] == c && c !in s[..r.value]
  {
    var i := FindFirst(s, {c});
    if i < |s| then Some(i) else None
  }

  /** `s.rfind(c)`, for a character that occurs in `s`. */
  function FindLast(s: string, c: char): (i: nat)
    requires c in s
    ensures i < |s| && s[i] == c && c !in s[i + 1..]
  {
    if s[|s| - 1] == c then |s| - 1 else FindLast(s[..|s| - 1], c)
  }

  /** `head, tail = s.split(c, 1)` when `c in s`, else `(s, '')`. */
  function SplitFirst(s: string, c: char): (r: (string, string))
    ensures c !in r.0
    ensures c in s ==> s == r.0 + [c] + r.1
    ensures c !in s ==> r == (s, [])
  {
    match Find(s, c)
    case None => (s, [])
    case Some(i) =>
      assert s == s[..i] + [c] + s[i + 1..];
      (s[..i], s[i + 1..])
  }

  /** The characters `str.lstrip` removes before splitting: the C0 controls
      and the space. */
  predicate IsC0OrSpace(c: char) {
    c <= ' '
  }

  /** `url.lstrip(_WHATWG_C0_CONTROL_OR_SPACE)`. */
  function StripLeadingC0(s: string): (r: string)
    ensures r == [] || !IsC0OrSpace(r[0])
    ensures EndsWith(s, r)
  {
    if s == [] || !IsC0OrSpace(s[0]) then s
    else
      var r := StripLeadingC0(s[1..]);
      assert s[|s| - |r|..] == s[1..][|s[1..]| - |r|..];
      r
  }

  const Unsafe: set<char> := {'\t', '\r', '\n'}

  /** Removal of every tab, carriage return and line feed. */
  function RemoveUnsafe(s: string): (r: string)
    ensures NoneIn(r, Unsafe)
    ensures NoneIn(s, Unsafe) ==> r == s
  {
    if s == [] then []
    else if s[0] in Unsafe then RemoveUnsafe(s[1..])
    else [s[0]] + RemoveUnsafe(s[1..])
  }

  predicate IsAsciiLetter(c: char) {
    'a' <= c <= 'z' || 'A' <= c <= 'Z'
  }

  /** `scheme_chars`: letters, digits and `+-.`. */
  predicate IsSchemeChar(c: char) {
    IsAsciiLetter(c) || IsDigit(c) || c == '+' || c == '-' || c == '.'
  }

  predicate AllSchemeChars(s: string) {
    forall i :: 0 <= i < |s| ==> IsSchemeChar(s[i])
  }

  /** The scheme and the rest: a non-empty run of scheme characters that
      starts with a letter and ends at the first `:`, lower-cased. */
  function SplitScheme(url: string): (r: (string, string))
    ensures AllSchemeChars(r.0)
    ensures r.0 == [] ==> r.1 == url
  {
    match Find(url, ':')
    case Some(i) =>
      if i > 0 && IsAsciiLetter(url[0]) && AllSchemeChars(url[..i]) then
        (Lower(url[..i]), url[i + 1..])
      else ([], url)
    case None => ([], url)
  }

  const NetlocEnd: set<char> := {'/', '?', '#'}

  /** `_splitparams`: the parameters follow the first `;` of the last path
      segment. */
  function SplitParams(path: string): (r: (string, string))
    ensures |r.0| <= |path| && r.0 == path[..|r.0|]
    ensures ';' !in path ==> r == (path, [])
  {
    var start := if '/' in path then FindLast(path, '/') else 0;
    match Find(path[start..], ';')
    case None => (path, [])
    case Some(j) => (path[..start + j], path[start + j + 1..])
  }

  /** `uses_params`: the schemes whose paths may carry `;` parameters. */
  const UsesParams: set<string> := {
    "", "ftp", "hdl", "prospero", "http", "imap", "https", "shttp", "rtsp",
    "rtsps", "rtspu", "sip", "sips", "mms", "sftp", "tel"}

  /** The string `urlsplit` works on: leading controls and spaces removed,
      then every tab, carriage return and line feed. */
  function Clean(url: string): (r: string)
    ensures NoneIn(r, Unsafe)
  {
    RemoveUnsafe(StripLeadingC0(url))
  }

  /** `_splitnetloc(url, 2)` when `url` starts with `//`: the network
      location runs up to the first `/`, `?` or `#`. */
  function SplitNetloc(rest: string): (r: (string, string))
    ensures NoneIn(r.0, NetlocEnd)
    ensures r.0 == [] ==> r.1 == rest || StartsWith(rest, "//")
  {
    if StartsWith(rest, "//") then
      var tail := rest[2..];
      var i := FindFirst(tail, NetlocEnd);
      (tail[..i], tail[i..])
    else ([], rest)
  }

  /** What follows the network location: fragment, query, then
      parameters for the schemes that use them. */
  function SplitPath(scheme: string, netloc: string, afterNetloc: string): (p: ParsedUrl)
    ensures p.scheme == scheme && p.netloc == netloc
    ensures '#' !in p.path && '?' !in p.path && '#' !in p.query
  {
    var (beforeFragment, fragment) := SplitFirst(afterNetloc, '#');
    var (pathAndParams, query) := SplitFirst(beforeFragment, '?');
    var (path, params) :=
      if scheme in UsesParams && ';' in pathAndParams then SplitParams(pathAndParams)
      else (pathAndParams, []);
    assert forall k :: 0 <= k < |path| ==> path[k] == pathAndParams[k];
    ParsedUrl(scheme, netloc, path, params, query, fragment)
  }

  /** `urlparse(url)`; the only exception modelled is the `ValueError`
      for a network location with one square bracket but not the other. */
  function Parse(url: string): (r: Result<ParsedUrl>)
    ensures r.Failure? ==> r.error == "Invalid IPv6 URL"
    ensures r.Success? ==> AllSchemeChars(r.value.scheme)
    ensures r.Success? ==> NoneIn(r.value.netloc, NetlocEnd) && '#' !in r.value.path && '?' !in r.value.path
    ensures r.Success? ==> '#' !in r.value.query
  {
    var (scheme, rest) := SplitScheme(Clean(url));
    var (netloc, afterNetloc) := SplitNetloc(rest);
    if ('[' in netloc) != (']' in netloc) then Failure("Invalid IPv6 URL")
    else Success(SplitPath(scheme, netloc, afterNetloc))
  }

  lemma NoneInConcat(a: string, b: string, cs: set<char>)
    requires NoneIn(a, cs) && NoneIn(b, cs)
    ensures NoneIn(a + b, cs)
  {
  }

  /** Splitting at the first `c` of `a + [c] + b` gives `a` and `b` when `a`
      holds no `c`. */
  lemma SplitFirstAt(a: string, c: char, b: string)
    requires c !in a
    ensures SplitFirst(a + [c] + b, c) == (a, b)
  {
    var s := a + [c] + b;
    assert NoneIn(a, {c});
    FindFirstAfter(a, [c] + b, {c});
    assert s == a + ([c] + b);
    assert s[..|a|] == a && s[|a| + 1..] == b;
  }

  /** `scheme://netloc` followed by the path, `?query` when the query is not
      empty and `#fragment` when the fragment is not empty. */
  function Compose(scheme: string, netloc: string, path: string, query: string, fragment: string): string {
    scheme + "://" + netloc + path
    + (if query == [] then [] else "?" + query)
    + (if fragment == [] then [] else "#" + fragment)
  }

  /** Components that `urlparse` reads back as they are: a lower-case
      scheme, a network location without delimiters or brackets, a path
      that starts with `/` (or is empty) and carries no `?`, `#` or `;`,
      a query without `#`, and no tab, carriage return or line feed anywhere. */
  predicate WellFormed(scheme: string, netloc: string, path: string, query: string, fragment: string) {
    && scheme != [] && IsAsciiLetter(scheme[0]) && AllSchemeChars(scheme) && Lower(scheme) == scheme
    && NoneIn(netloc, NetlocEnd + Unsafe + {'[', ']'})
    && (path == [] || path[0] == '/') && NoneIn(path, {'?', '#', ';'} + Unsafe)
    && NoneIn(query, {'#'} + Unsafe)
    && NoneIn(fragment, Unsafe)
  }

  lemma ComposeNoUnsafe(scheme: string, netloc: string, path: string, query: string, fragment: string)
    requires WellFormed(scheme, netloc, path, query, fragment)
    ensures NoneIn(Compose(scheme, netloc, path, query, fragment), Unsafe)
  {
    assert NoneIn(scheme, Unsafe);
    assert NoneIn(scheme + "://" + netloc + path, Unsafe);
    var q := if query == [] then [] else "?" + query;
    var f := if fragment == [] then [] else "#" + fragment;
    assert NoneIn(q, Unsafe) && NoneIn(f, Unsafe);
  }

  /** An optional `c`-introduced piece after a prefix free of `c` is what
      splitting at the first `c` cuts off. */
  lemma SplitOptional(a: string, c: char, x: string)
    requires c !in a
    ensures SplitFirst(a + (if x == [] then [] else [c] + x), c) == (a, x)
  {
    if x != [] {
      SplitFirstAt(a, c, x);
      assert a + ([c] + x) == a + [c] + x;
    } else {
      assert a + [] == a;
    }
  }

  lemma NotInFromNoneIn(s: string, c: char, cs: set<char>)
    requires NoneIn(s, cs) && c in cs
    ensures c !in s
  {
  }

  /** The part after a well-formed network location splits into path,
      query and fragment, with no parameters. */
  lemma SplitPathCompose(scheme: string, netloc: string, path: string, query: string, fragment: string)
    requires NoneIn(path, {'?', '#', ';'}) && NoneIn(query, {'#'})
    ensures var q := if query == [] then [] else "?" + query;
            var f := if fragment == [] then [] else "#" + fragment;
            SplitPath(scheme, netloc, path + q + f) == ParsedUrl(scheme, netloc, path, [], query, fragment)
  {
    var q := if query == [] then [] else "?" + query;
    assert q == if query == [] then [] else ['?'] + query;
    assert NoneIn(q, {'#'});
    NoneInConcat(path, q, {'#'});
    NotInFromNoneIn(path + q, '#', {'#'});
    SplitOptional(path + q, '#', fragment);
    NotInFromNoneIn(path, '?', {'?', '#', ';'});
    SplitOptional(path, '?', query);
    NotInFromNoneIn(path, ';', {'?', '#', ';'});
  }

  /** `urlparse` reads well-formed components back unchanged, with empty
      parameters. */
  lemma ParseCompose(scheme: string, netloc: string, path: string, query: string, fragment: string)
    requires WellFormed(scheme, netloc, path, query, fragment)
    ensures Parse(Compose(scheme, netloc, path, query, fragment))
            == Success(ParsedUrl(scheme, netloc, path, [], query, fragment))
  {
    var q := if query == [] then [] else "?" + query;
    var f := if fragment == [] then [] else "#" + fragment;
    var after := path + q + f;
    ComposeShape(scheme, netloc, path, query, fragment);
    CleanCompose(scheme, netloc, path, query, fragment);
    SchemeCompose(scheme, "//" + (netloc + after));
    NetlocCompose(netloc, after);
    NotInFromNoneIn(netloc, '[', NetlocEnd + Unsafe + {'[', ']'});
    NotInFromNoneIn(netloc, ']', NetlocEnd + Unsafe + {'[', ']'});
    SplitPathCompose(scheme, netloc, path, query, fragment);
  }

  /** `Compose` regrouped the way `Parse` reads it back. */
  lemma ComposeShape(scheme: string, netloc: string, path: string, query: string, fragment: string)
    ensures var q := if query == [] then [] else "?" + query;
            var f := if fragment == [] then [] else "#" + fragment;
            Compose(scheme, netloc, path, query, fragment) == scheme + ":" + ("//" + (netloc + (path + q + f)))
  {
  }

  lemma CleanCompose(scheme: string, netloc: string, path: string, query: string, fragment: string)
    requires WellFormed(scheme, netloc, path, query, fragment)
    ensures Clean(Compose(scheme, netloc, path, query, fragment)) == Compose(scheme, netloc, path, query, fragment)
  {
    var url := Compose(scheme, netloc, path, query, fragment);
    ComposeNoUnsafe(scheme, netloc, path, query, fragment);
    assert url[0] == scheme[0];
    assert StripLeadingC0(url) == url;
  }

  /** A well-formed scheme in front of `:` is split off as it is. */
  lemma SchemeCompose(scheme: string, rest: string)
    requires scheme != [] && IsAsciiLetter(scheme[0]) && AllSchemeChars(scheme) && Lower(scheme) == scheme
    ensures SplitScheme(scheme + ":" + rest) == (scheme, rest)
  {
    var url := scheme + ":" + rest;
    assert NoneIn(scheme, {':'});
    FindFirstAfter(scheme, ":" + rest, {':'});
    assert url == scheme + (":" + rest);
    assert url[..|scheme|] == scheme && url[|scheme| + 1..] == rest;
  }

  /** A network location free of delimiters is read up to the path. */
  lemma NetlocCompose(netloc: string, after: string)
    requires NoneIn(netloc, NetlocEnd) && (after == [] || after[0] in NetlocEnd)
    ensures SplitNetloc("//" + (netloc + after)) == (netloc, after)
  {
    var rest := "//" + (netloc + after);
    assert rest[2..] == netloc + after;
    FindFirstAfter(netloc, after, NetlocEnd);
    assert (netloc + after)[..|netloc|] == netloc && (netloc + after)[|netloc|..] == after;
  }

  /** One `name=value` field of a query string after `parse_qsl`. */
  datatype QueryField = QueryField(name: string, value: string)

  /** `parse_qsl(qs)` with its defaults: fields are separated by `&`; empty
      fields, fields without `=` and fields whose value is empty are
      dropped; names and values are unquoted with `+` read as a space. */
  function QueryFields(qs: string): (r: seq<QueryField>)
    ensures |r| <= |SplitOn(qs, '&')|
  {
    FieldsOf(SplitOn(qs, '&'))
  }

  function FieldsOf(items: seq<string>): (r: seq<QueryField>)
    ensures |r| <= |items|
  {
    if items == [] then []
    else
      var rest := FieldsOf(items[1..]);
      var (name, value) := SplitFirst(items[0], '=');
      if '=' in items[0] && value != [] then
        [QueryField(Percent.UnquotePlus(name), Percent.UnquotePlus(value))] + rest
      else rest
  }

  /** Position of the first field called `name`, or `|fields|`. */
  function FirstField(fields: seq<QueryField>, name: string): (k: nat)
    ensures k <= |fields|
    ensures forall j :: 0 <= j < k ==> fields[j].name != name
    ensures k < |fields| ==> fields[k].name == name
  {
    if fields == [] || fields[0].name == name then 0 else 1 + FirstField(fields[1..], name)
  }

  /** `parse_qs(qs)[name][0]`: the first value recorded for `name`, `None`
      when `name in parse_qs(qs)` is false. */
  function FirstValue(fields: seq<QueryField>, name: string): (r: Option<string>)
    ensures r.None? <==> forall j :: 0 <= j < |fields| ==> fields[j].name != name
  {
    var k := FirstField(fields, name);
    if k < |fields| then Some(fields[k].value) else None
  }
}
