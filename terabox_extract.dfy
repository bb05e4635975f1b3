/** `extract_terabox_download_link`: a direct download link is described
    from its own query; a share link is normalised, resolved with
    `TeraboxFile`, and its first file is handed to `TeraboxLink`. Every
    outcome is a result record; the progress callback's calls are
    returned as a trace. */
module Extraction {
  import opened Wrappers
  import opened Upstream
  import TeraboxUrls
  import FileInfo
  import DownloadLink
  import Percent
  import Patterns
  import Text

  /** One call of the progress callback. */
  datatype Progress = Progress(percent: int, step: string)

  /** The dictionary the function returns. */
  datatype Outcome =
    | Extracted(url: string, filename: string, size: string)
    | ExtractionFailed(error: string)

  const FallbackFilename: string := "TeraboxFile"
  const UnknownSize: string := "Unknown size"

  /** The message of the result built from an exception. */
  const ErrorPrefix: string := "Error processing Terabox link: "

  const Started: Progress := Progress(5, "Starting extraction")

  /** The direct path: the link itself, the name from `fn=`/`fin=` (or
      `TeraboxFile`), the size from `size=` (or `Unknown size`). */
  function DescribeDirect(url: string): (r: (Outcome, seq<Progress>))
    ensures r.0.Extracted? && r.0.url == url && r.0.filename != []
    ensures |r.1| == 3 && r.1[0].percent == 5 && r.1[1].percent == 40 && r.1[2].percent == 60
  {
    var name := TeraboxUrls.ExtractFilenameFromUrl(url);
    var filename := if name.None? || name.value == [] then FallbackFilename else name.value;
    var size := match TeraboxUrls.SizeParameter(url)
      case Some(n) => TeraboxUrls.FormatFileSize(n)
      case None => UnknownSize;
    (Extracted(url, filename, size),
     [Started, Progress(40, "Direct URL detected"), Progress(60, "URL processed")])
  }

  /** `tl.result['download_link'].get('url_1') or ...get('url_2')`, with
      `""` standing for every falsy outcome. */
  function PreferredLink(links: map<string, string>): string {
    if DownloadLink.PrimaryKey in links && links[DownloadLink.PrimaryKey] != [] then links[DownloadLink.PrimaryKey]
    else if DownloadLink.FallbackKey in links then links[DownloadLink.FallbackKey]
    else ""
  }

  /** `format_file_size(int(size))` when the first file's `size` is truthy. */
  function SizeText(size: Option<int>): string {
    if size.Some? && size.value != 0 then TeraboxUrls.FormatFileSize(size.value) else UnknownSize
  }

  /** The share-link path from the resolved `TeraboxFile` state on: the
      sign check, the first listed file, the two download-link endpoints
      and the choice between their links. */
  function DescribeShared(st: FileInfo.FileState, services: Services, relay: nat): (r: (Outcome, seq<Progress>))
    requires relay < |DownloadLink.BaseUrls|
  {
    if st.status != "success" then (ExtractionFailed("Could not extract sign parameter"), [])
    else if st.list == [] then (ExtractionFailed("No files found in the Terabox link"), [])
    else
      var file := st.list[0];
      var params := LinkParams(st.shareid, st.uk, st.sign, st.timestamp, file.fsId);
      var links := DownloadLink.GenerateStep(DownloadLink.NoLinks, params, services, relay);
      var trace := [Progress(50, "Generating download link"), Progress(70, "Download link generated")];
      if links.status != "success" then (ExtractionFailed("Failed to generate download links"), trace)
      else
        var link := PreferredLink(links.links);
        if link == [] then (ExtractionFailed("No download link generated"), trace)
        else (Extracted(link, file.name, SizeText(file.size)), trace + [Progress(80, "Ready for download")])
  }

  /** `extract_terabox_download_link(url, callback)` with the services
      answering as `services` and `random.choice` picking worker `relay`. */
  function Extract(url: string, services: Services, relay: nat): (Outcome, seq<Progress>)
    requires relay < |DownloadLink.BaseUrls|
  {
    if TeraboxUrls.IsDirectDownloadUrl(url) then DescribeDirect(url)
    else
      match TeraboxUrls.NormalizeUrl(url)
      case Failure(e) => (ExtractionFailed(ErrorPrefix + e), [Started])
      case Success(normalized) => ResolveShared(normalized, services, relay)
  }

  /** The share path from the normalised link on: `TeraboxFile.search`,
      then `DescribeShared` on the state it leaves. */
  function ResolveShared(normalized: string, services: Services, relay: nat): (Outcome, seq<Progress>)
    requires relay < |DownloadLink.BaseUrls|
  {
    AfterSearch(FileInfo.SearchStep(FileInfo.Initial, normalized, services), services, relay)
  }

  /** The share path once `search` has answered whether it resolved the
      link and left the file state. */
  function AfterSearch(search: (bool, FileInfo.FileState), services: Services, relay: nat): (Outcome, seq<Progress>)
    requires relay < |DownloadLink.BaseUrls|
  {
    var trace := [Started, Progress(10, "URL normalized")];
    if !search.0 then (ExtractionFailed("Failed to process the Terabox URL"), trace)
    else
      var (outcome, rest) := DescribeShared(search.1, services, relay);
      (outcome, trace + [Progress(30, "File information extracted")] + rest)
  }

  /** The share path reports nothing, or 50% and 70%, and a success adds
      80%. */
  lemma SharedTrace(st: FileInfo.FileState, services: Services, relay: nat)
    requires relay < |DownloadLink.BaseUrls|
    ensures var (outcome, trace) := DescribeShared(st, services, relay);
            (trace == [] && outcome.ExtractionFailed?) ||
            (trace == [Progress(50, "Generating download link"), Progress(70, "Download link generated")] && outcome.ExtractionFailed?) ||
            (trace == [Progress(50, "Generating download link"), Progress(70, "Download link generated"), Progress(80, "Ready for download")] && outcome.Extracted?)
  {
  }

  /** Each report is at a higher percentage than every earlier one. */
  predicate Rising(trace: seq<Progress>) {
    forall i, j :: 0 <= i < j < |trace| ==> trace[i].percent < trace[j].percent
  }

  /** The three reports before `DescribeShared`, followed by any of the
      traces it can report, rise. */
  lemma SharedPrefixRises(rest: seq<Progress>)
    requires |rest| <= 3
    requires forall k :: 0 <= k < |rest| ==> rest[k].percent == [50, 70, 80][k]
    ensures Rising([Started, Progress(10, "URL normalized")] + [Progress(30, "File information extracted")] + rest)
  {
    var t := [Started, Progress(10, "URL normalized")] + [Progress(30, "File information extracted")] + rest;
    assert forall k :: 0 <= k < |t| ==> t[k].percent == [5, 10, 30, 50, 70, 80][k];
  }

  /** On the share path the progress goes 5, 10, 30 and then as
      `SharedTrace` says. */
  lemma AfterSearchTrace(search: (bool, FileInfo.FileState), services: Services, relay: nat)
    requires relay < |DownloadLink.BaseUrls|
    ensures var (outcome, trace) := AfterSearch(search, services, relay);
            |trace| >= 2 && trace[0] == Started && Rising(trace) &&
            (outcome.Extracted? ==> trace[|trace| - 1].percent == 80) &&
            (outcome.ExtractionFailed? ==> outcome.error in SharedErrors)
  {
    if search.0 {
      var (outcome, rest) := DescribeShared(search.1, services, relay);
      SharedTrace(search.1, services, relay);
      SharedPrefixRises(rest);
    }
  }

  lemma ResolveSharedTrace(normalized: string, services: Services, relay: nat)
    requires relay < |DownloadLink.BaseUrls|
    ensures var (outcome, trace) := ResolveShared(normalized, services, relay);
            |trace| >= 2 && trace[0] == Started && Rising(trace) &&
            (outcome.Extracted? ==> trace[|trace| - 1].percent == 80) &&
            (outcome.ExtractionFailed? ==> outcome.error in SharedErrors)
  {
    AfterSearchTrace(FileInfo.SearchStep(FileInfo.Initial, normalized, services), services, relay);
  }

  const SharedErrors: set<string> := {
    "Failed to process the Terabox URL", "Could not extract sign parameter",
    "No files found in the Terabox link", "Failed to generate download links",
    "No download link generated"}

  /** The progress reported only goes up, always starts at 5%, and a
      success ends at 60% (direct link) or 80% (share link). */
  lemma ExtractTraceRises(url: string, services: Services, relay: nat)
    requires relay < |DownloadLink.BaseUrls|
    ensures var (outcome, trace) := Extract(url, services, relay);
            |trace| >= 1 && trace[0] == Started && Rising(trace) &&
            (outcome.Extracted? ==> trace[|trace| - 1].percent in {60, 80})
  {
    if TeraboxUrls.IsDirectDownloadUrl(url) {
      DirectTrace(url);
    } else if TeraboxUrls.NormalizeUrl(url).Success? {
      ResolveSharedTrace(TeraboxUrls.NormalizeUrl(url).value, services, relay);
    }
  }

  /** The direct path reports 5%, 40% and 60%. */
  lemma DirectTrace(url: string)
    ensures var trace := DescribeDirect(url).1;
            |trace| == 3 && trace[0] == Started && Rising(trace) && trace[2].percent == 60
  {
    var trace := DescribeDirect(url).1;
    assert trace == [Started, Progress(40, "Direct URL detected"), Progress(60, "URL processed")];
  }

  /** The only error messages: five fixed ones and the one carrying the
      exception raised while normalising a malformed link. */
  lemma ExtractErrors(url: string, services: Services, relay: nat)
    requires relay < |DownloadLink.BaseUrls|
    ensures var outcome := Extract(url, services, relay).0;
            outcome.ExtractionFailed? ==>
              outcome.error in SharedErrors || outcome.error == ErrorPrefix + "Invalid IPv6 URL"
  {
    if !TeraboxUrls.IsDirectDownloadUrl(url) {
      var n := TeraboxUrls.NormalizeUrl(url);
      if n.Success? {
        ResolveSharedTrace(n.value, services, relay);
      }
    }
  }

  /** A direct download link is always described, never fetched: the
      result holds that same link and a non-empty name. */
  lemma DirectLinkKept(url: string, services: Services, relay: nat)
    requires relay < |DownloadLink.BaseUrls| && TeraboxUrls.IsDirectDownloadUrl(url)
    ensures var outcome := Extract(url, services, relay).0;
            outcome.Extracted? && outcome.url == url && outcome.filename != []
  {
  }

  /** On the direct path the name is the percent-decoded value of the
      first `fn=` field, and the size that of the first `size=` field. */
  lemma DirectNameFromFn(a: string, name: string, rest: string)
    requires !Text.Contains(a, "fn=") && name != []
    requires rest == [] || rest[0] == '&'
    ensures DescribeDirect(a + "fn=" + Percent.Quote(name) + rest).0.filename == name
  {
    TeraboxUrls.FilenameRoundTrip(a, name, rest);
  }

  lemma DirectSizeFromQuery(a: string, n: nat, rest: string)
    requires !Text.Contains(a, "size=")
    requires rest == [] || !Text.IsDigit(rest[0])
    ensures DescribeDirect(a + "size=" + Text.NatToString(n) + rest).0.size == TeraboxUrls.FormatFileSize(n)
  {
    TeraboxUrls.SizeRoundTrip(a, n, rest);
  }

  /** Without an `fn=` or `fin=` field the name is `TeraboxFile`; without
      a `size=` field the size is `Unknown size`. */
  lemma DirectFallbacks(url: string)
    ensures Patterns.Capture(url, "fn=", Patterns.NotAmpersand).None?
            && Patterns.Capture(url, "fin=", Patterns.NotAmpersand).None?
            ==> DescribeDirect(url).0.filename == FallbackFilename
    ensures !Patterns.HasSizeMarker(url) ==> DescribeDirect(url).0.size == UnknownSize
  {
  }

  /** Once `search` has resolved a share link, the sign error is reported
      exactly when the sign helper did not answer `ok` with a sign and a
      timestamp, whatever the listing returned. */
  lemma SignFailureReported(normalized: string, services: Services, relay: nat)
    requires relay < |DownloadLink.BaseUrls|
    requires FileInfo.SearchStep(FileInfo.Initial, normalized, services).0
    ensures var t := FileInfo.SearchStep(FileInfo.Initial, normalized, services).1;
            t.shortUrl.Some? &&
            var resp := services.signInfo(SignUrl(t.shortUrl.value));
            (ResolveShared(normalized, services, relay).0 == ExtractionFailed("Could not extract sign parameter")
             <==> !(resp.SignBody? && resp.ok == Some(true) && resp.sign.Some? && resp.timestamp.Some?))
  {
    FileInfo.SearchSignedIff(normalized, services);
  }

  /** With a sign and a listed file, a non-empty link from the first
      endpoint is the one kept, whatever the second endpoint answers; the
      size is `Unknown size` when the file's size is missing or 0. */
  lemma SharedPrefersPrimary(st: FileInfo.FileState, services: Services, relay: nat)
    requires relay < |DownloadLink.BaseUrls|
    requires st.status == "success" && st.list != []
    ensures var file := st.list[0];
            var params := LinkParams(st.shareid, st.uk, st.sign, st.timestamp, file.fsId);
            var first := DownloadLink.Offered(services.primaryLink(params));
            var outcome := DescribeShared(st, services, relay).0;
            (first.Some? && first.value != [] ==> outcome.Extracted? && outcome.url == first.value) &&
            (outcome.Extracted? ==> outcome.filename == file.name) &&
            (outcome.Extracted? && (file.size.None? || file.size == Some(0)) ==> outcome.size == UnknownSize) &&
            (outcome.Extracted? && file.size.Some? && file.size.value != 0 ==>
               outcome.size == TeraboxUrls.FormatFileSize(file.size.value))
  {
    var file := st.list[0];
    var params := LinkParams(st.shareid, st.uk, st.sign, st.timestamp, file.fsId);
    DownloadLink.GenerateLinks(params, services, relay);
    DownloadLink.GenerateStatus(params, services, relay);
  }

  /** A share link resolves to a non-empty link that is either exactly the
      first endpoint's answer or a wrapped address that unwraps to the
      second endpoint's answer, and to the name of the first listed file. */
  lemma SharedLinkSource(st: FileInfo.FileState, services: Services, relay: nat)
    requires relay < |DownloadLink.BaseUrls|
    requires DescribeShared(st, services, relay).0.Extracted?
    ensures var outcome := DescribeShared(st, services, relay).0;
            var file := st.list[0];
            var params := LinkParams(st.shareid, st.uk, st.sign, st.timestamp, file.fsId);
            outcome.url != [] && outcome.filename == file.name &&
            (Some(outcome.url) == DownloadLink.Offered(services.primaryLink(params)) ||
             DownloadLink.Unwrap(outcome.url) == DownloadLink.Offered(services.fallbackLink(params)))
  {
    var file := st.list[0];
    var params := LinkParams(st.shareid, st.uk, st.sign, st.timestamp, file.fsId);
    DownloadLink.GenerateLinks(params, services, relay);
  }

  /** "No download link generated" is reported only when the first
      endpoint sent an empty link and the second sent none: a wrapped link
      is never empty. */
  lemma NoLinkOnlyWhenPrimaryEmpty(st: FileInfo.FileState, services: Services, relay: nat)
    requires relay < |DownloadLink.BaseUrls|
    requires DescribeShared(st, services, relay).0 == ExtractionFailed("No download link generated")
    ensures var params := LinkParams(st.shareid, st.uk, st.sign, st.timestamp, st.list[0].fsId);
            DownloadLink.Offered(services.primaryLink(params)) == Some("") &&
            DownloadLink.Offered(services.fallbackLink(params)).None?
  {
    var params := LinkParams(st.shareid, st.uk, st.sign, st.timestamp, st.list[0].fsId);
    DownloadLink.GenerateLinks(params, services, relay);
    DownloadLink.GenerateStatus(params, services, relay);
  }

  /** `extract_terabox_download_link`: the same steps on the objects. */
  method ExtractTeraboxDownloadLink(url: string, services: Services, relay: nat)
    returns (outcome: Outcome, trace: seq<Progress>)
    requires relay < |DownloadLink.BaseUrls|
    ensures (outcome, trace) == Extract(url, services, relay)
  {
    if TeraboxUrls.IsDirectDownloadUrl(url) {
      outcome, trace := DescribeDirectLink(url);
      return;
    }
    trace := [Started];
    var normalized := TeraboxUrls.NormalizeUrl(url);
    if normalized.Failure? {
      return ExtractionFailed(ErrorPrefix + normalized.error), trace;
    }
    outcome, trace := ResolveSharedLink(normalized.value, services, relay);
  }

  /** The direct path on its own. */
  method DescribeDirectLink(url: string) returns (outcome: Outcome, trace: seq<Progress>)
    ensures (outcome, trace) == DescribeDirect(url)
  {
    trace := [Started, Progress(40, "Direct URL detected")];
    var name := TeraboxUrls.ExtractFilenameFromUrl(url);
    var filename := FallbackFilename;
    if name.Some? && name.value != [] {
      filename := name.value;
    }
    var size := UnknownSize;
    var sizeBytes := TeraboxUrls.SizeParameter(url);
    if sizeBytes.Some? {
      size := TeraboxUrls.FormatFileSize(sizeBytes.value);
    }
    trace := trace + [Progress(60, "URL processed")];
    assert trace == DescribeDirect(url).1;
    assert filename == DescribeDirect(url).0.filename;
    assert size == DescribeDirect(url).0.size;
    return Extracted(url, filename, size), trace;
  }

  /** The share path on the objects: a fresh `TeraboxFile` searches the
      normalised link. */
  method ResolveSharedLink(normalized: string, services: Services, relay: nat)
    returns (outcome: Outcome, trace: seq<Progress>)
    requires relay < |DownloadLink.BaseUrls|
    ensures (outcome, trace) == ResolveShared(normalized, services, relay)
  {
    trace := [Started, Progress(10, "URL normalized")];
    var tf := new FileInfo.TeraboxFile();
    var found := tf.Search(normalized, services);
    if !found {
      return ExtractionFailed("Failed to process the Terabox URL"), trace;
    }
    var rest;
    outcome, rest := LinkFirstFile(tf, services, relay);
    trace := trace + [Progress(30, "File information extracted")] + rest;
  }

  /** From the sign check on: a `TeraboxLink` for the first listed file. */
  method LinkFirstFile(tf: FileInfo.TeraboxFile, services: Services, relay: nat)
    returns (outcome: Outcome, trace: seq<Progress>)
    requires relay < |DownloadLink.BaseUrls|
    ensures (outcome, trace) == DescribeShared(tf.State(), services, relay)
  {
    trace := [];
    if tf.status != "success" {
      return ExtractionFailed("Could not extract sign parameter"), trace;
    }
    if tf.list == [] {
      return ExtractionFailed("No files found in the Terabox link"), trace;
    }
    var file := tf.list[0];
    trace := trace + [Progress(50, "Generating download link")];
    var params := LinkParams(tf.shareid, tf.uk, tf.sign, tf.timestamp, file.fsId);
    var tl := new DownloadLink.TeraboxLink(tf.shareid, tf.uk, tf.sign, tf.timestamp, file.fsId);
    tl.Generate(services, relay);
    assert tl.State() == DownloadLink.GenerateStep(DownloadLink.NoLinks, params, services, relay);
    assert tf.State() == old(tf.State());
    trace := trace + [Progress(70, "Download link generated")];
    assert trace == [Progress(50, "Generating download link"), Progress(70, "Download link generated")];
    if tl.status != "success" {
      return ExtractionFailed("Failed to generate download links"), trace;
    }
    var link := PreferredLink(tl.links);
    if link == [] {
      return ExtractionFailed("No download link generated"), trace;
    }
    var size := UnknownSize;
    if file.size.Some? && file.size.value != 0 {
      size := TeraboxUrls.FormatFileSize(file.size.value);
    }
    trace := trace + [Progress(80, "Ready for download")];
    return Extracted(link, file.name, size), trace;
  }
}
