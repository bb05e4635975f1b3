/** `TeraboxFile`: resolves a share link to its short id, the listing of
    the shared files (directories expanded recursively) and the sign and
    timestamp the download-link service needs. */
module FileInfo {
  import opened Wrappers
  import opened Text
  import opened Upstream
  import Patterns
  import TeraboxUrls

  /** What `checkFileType` reports. */
  datatype FileKind = Image | Video | Audio | Other

  const ImageExtensions: seq<string> := [".jpg", ".jpeg", ".png", ".gif", ".webp"]
  const VideoExtensions: seq<string> := [".mp4", ".mkv", ".avi", ".mov", ".flv", ".webm"]
  const AudioExtensions: seq<string> := [".mp3", ".wav", ".flac", ".ogg", ".m4a"]

  predicate EndsWithAny(s: string, exts: seq<string>) {
    exists i | 0 <= i < |exts| :: EndsWith(s, exts[i])
  }

  /** `checkFileType(name)`: the kind of the first extension group (images,
      then videos, then audio) that the lower-cased name ends with. */
  function CheckFileType(name: string): FileKind {
    var n := Lower(name);
    if EndsWithAny(n, ImageExtensions) then Image
    else if EndsWithAny(n, VideoExtensions) then Video
    else if EndsWithAny(n, AudioExtensions) then Audio
    else Other
  }

  /** The check does not depend on letter case. */
  lemma CheckFileTypeIgnoresCase(name: string)
    ensures CheckFileType(Lower(name)) == CheckFileType(name)
  {
    LowerIdempotent(name);
  }

  /** Lower-casing a name that ends with a lower-case extension keeps that
      extension at its end. */
  lemma LowerKeepsExtension(stem: string, ext: string)
    requires Lower(ext) == ext
    ensures EndsWith(Lower(stem + ext), ext)
    ensures Lower(stem + ext)[|stem|..] == ext
  {
    var n := Lower(stem + ext);
    assert forall k :: 0 <= k < |ext| ==> n[|stem| + k] == LowerChar(ext[k]) == Lower(ext)[k];
  }

  /** The last two characters of a name decide which group it falls in. */
  lemma LastTwo(n: string, e: string)
    requires EndsWith(n, e) && |e| >= 2
    ensures n[|n| - 1] == e[|e| - 1] && n[|n| - 2] == e[|e| - 2]
  {
    assert n[|n| - |e|..][|e| - 1] == n[|n| - 1];
    assert n[|n| - |e|..][|e| - 2] == n[|n| - 2];
  }

  lemma LastTwoIf(n: string, e: string)
    requires |e| >= 2
    ensures EndsWith(n, e) ==> n[|n| - 1] == e[|e| - 1] && n[|n| - 2] == e[|e| - 2]
  {
    if EndsWith(n, e) {
      LastTwo(n, e);
    }
  }

  /** No extension in `exts` has the same last two characters as `n`. */
  predicate EndingsAvoid(n: string, exts: seq<string>) {
    |n| >= 2 &&
    forall j :: 0 <= j < |exts| ==>
      |exts[j]| >= 2 && (exts[j][|exts[j]| - 1] != n[|n| - 1] || exts[j][|exts[j]| - 2] != n[|n| - 2])
  }

  /** A name whose last two characters match those of no extension in
      `exts` ends with none of them. */
  lemma EndsWithNone(n: string, exts: seq<string>)
    requires EndingsAvoid(n, exts)
    ensures !EndsWithAny(n, exts)
  {
    forall j | 0 <= j < |exts|
      ensures !EndsWith(n, exts[j])
    {
      LastTwoIf(n, exts[j]);
    }
  }

  /** Whether a name avoids the endings of `exts` depends only on its last
      two characters. */
  lemma EndingsAvoidLastTwo(n: string, e: string, exts: seq<string>)
    requires EndingsAvoid(e, exts) && |n| >= 2
    requires n[|n| - 1] == e[|e| - 1] && n[|n| - 2] == e[|e| - 2]
    ensures EndingsAvoid(n, exts)
  {
  }

  lemma VideoEndingsAvoidImages(i: nat)
    requires i < |VideoExtensions|
    ensures EndingsAvoid(VideoExtensions[i], ImageExtensions)
  {
  }

  lemma AudioEndingsAvoidImages(i: nat)
    requires i < |AudioExtensions|
    ensures EndingsAvoid(AudioExtensions[i], ImageExtensions)
  {
  }

  lemma AudioEndingsAvoidVideos(i: nat)
    requires i < |AudioExtensions|
    ensures EndingsAvoid(AudioExtensions[i], VideoExtensions)
  {
  }

  /** A name with a video extension, in any letter case, is a video: no
      image extension ends the same way. */
  lemma VideoExtensionIsVideo(stem: string, i: nat)
    requires i < |VideoExtensions|
    ensures CheckFileType(stem + VideoExtensions[i]) == Video
  {
    var ext := VideoExtensions[i];
    var n := Lower(stem + ext);
    LowerKeepsExtension(stem, ext);
    LastTwo(n, ext);
    VideoEndingsAvoidImages(i);
    EndingsAvoidLastTwo(n, ext, ImageExtensions);
    EndsWithNone(n, ImageExtensions);
  }

  /** A name with an image extension is an image. */
  lemma ImageExtensionIsImage(stem: string, i: nat)
    requires i < |ImageExtensions|
    ensures CheckFileType(stem + ImageExtensions[i]) == Image
  {
    LowerKeepsExtension(stem, ImageExtensions[i]);
  }

  /** A name with an audio extension is audio: no image or video extension
      ends the same way. */
  lemma AudioExtensionIsAudio(stem: string, i: nat)
    requires i < |AudioExtensions|
    ensures CheckFileType(stem + AudioExtensions[i]) == Audio
  {
    var ext := AudioExtensions[i];
    var n := Lower(stem + ext);
    LowerKeepsExtension(stem, ext);
    LastTwo(n, ext);
    AudioEndingsAvoidImages(i);
    AudioEndingsAvoidVideos(i);
    EndingsAvoidLastTwo(n, ext, ImageExtensions);
    EndingsAvoidLastTwo(n, ext, VideoExtensions);
    EndsWithNone(n, ImageExtensions);
    EndsWithNone(n, VideoExtensions);
  }

  /** One entry of the packed listing. `child` is present for directories
      only; `size` is absent for directories and for files without one. */
  datatype PackedFile = PackedFile(
    isDir: int, path: string, fsId: string, name: string, kind: FileKind,
    size: Option<int>, image: string, child: Option<seq<PackedFile>>)

  /** `thumbs.get('url3', '')` for a file entry. */
  function Thumbnail(t: ThumbsField): string
    requires !t.ThumbsNotObject?
  {
    match t
    case NoThumbs => ""
    case Thumbs(u) => u.GetOr("")
  }

  /** The `file_info` record of one entry, or `None` when building it
      raises: a missing `isdir`, `path`, `fs_id` or `server_filename`, an
      `isdir` that `int()` rejects, a file whose `thumbs` has no `.get`, or
      a directory whose children cannot be fetched. */
  function PackItem(item: RawItem): Option<PackedFile>
    decreases item
  {
    match item
    case NotAnObject => None
    case RawItem(isdir, path, fsId, name, size, thumbs, children) =>
      if isdir.NoIsDir? || path.None? || fsId.None? || name.None? || isdir.IsDirNotNumber? then None
      else if isdir.n == 0 then
        if thumbs.ThumbsNotObject? then None
        else Some(PackedFile(isdir.n, path.value, fsId.value, name.value, CheckFileType(name.value),
                             size, Thumbnail(thumbs), None))
      else
        match children
        case ChildUnreachable => None
        case ChildBody(l) =>
          Some(PackedFile(isdir.n, path.value, fsId.value, name.value, Other, None, "", Some(PackListing(l))))
  }

  /** `packData(req)`: the packed entries in listing order; `[]` when the
      listing has no `list`, when it is not a list, or when any entry
      raises. */
  function PackListing(l: Listing): seq<PackedFile>
    decreases l
  {
    match l.list
    case NoList => []
    case NotAList => []
    case Items(items) =>
      match PackItems(items, |items|)
      case None => []
      case Some(ps) => ps
  }

  /** The first `k` entries packed, or `None` if one of them raises. */
  function PackItems(items: seq<RawItem>, k: nat): Option<seq<PackedFile>>
    requires k <= |items|
    decreases items, k
  {
    if k == 0 then Some([])
    else
      match PackItems(items, k - 1)
      case None => None
      case Some(ps) =>
        match PackItem(items[k - 1])
        case None => None
        case Some(p) => Some(ps + [p])
  }

  /** Packing keeps order and count: entry `j` of the result is entry `j`
      of the listing packed. */
  lemma {:induction false} PackItemsInOrder(items: seq<RawItem>, k: nat)
    requires k <= |items| && PackItems(items, k).Some?
    ensures |PackItems(items, k).value| == k
    ensures forall j :: 0 <= j < k ==> PackItem(items[j]).Some? && PackItems(items, k).value[j] == PackItem(items[j]).value
  {
    if k > 0 {
      PackItemsInOrder(items, k - 1);
    }
  }

  /** Once an entry raises, the whole listing packs to nothing. */
  lemma {:induction false} PackItemsFailureSticks(items: seq<RawItem>, j: nat, k: nat)
    requires j < k <= |items| && PackItem(items[j]).None?
    ensures PackItems(items, k).None?
  {
    if k - 1 > j {
      PackItemsFailureSticks(items, j, k - 1);
    }
  }

  /** A listing packs entry for entry exactly when every entry packs; a
      single entry that raises (a missing field, an unreachable
      sub-directory) empties the whole result. */
  lemma PackListingEntries(items: seq<RawItem>, shareid: Option<string>, uk: Option<string>)
    ensures var r := PackListing(Listing(Items(items), shareid, uk));
            (forall j :: 0 <= j < |items| ==> PackItem(items[j]).Some?) ==>
              |r| == |items| && forall j :: 0 <= j < |items| ==> r[j] == PackItem(items[j]).value
    ensures (exists j :: 0 <= j < |items| && PackItem(items[j]).None?) ==>
              PackListing(Listing(Items(items), shareid, uk)) == []
  {
    if forall j :: 0 <= j < |items| ==> PackItem(items[j]).Some? {
      AllPack(items, |items|);
      PackItemsInOrder(items, |items|);
    }
    if exists j :: 0 <= j < |items| && PackItem(items[j]).None? {
      var j :| 0 <= j < |items| && PackItem(items[j]).None?;
      PackItemsFailureSticks(items, j, |items|);
    }
  }

  lemma {:induction false} AllPack(items: seq<RawItem>, k: nat)
    requires k <= |items| && forall j :: 0 <= j < k ==> PackItem(items[j]).Some?
    ensures PackItems(items, k).Some?
  {
    if k > 0 {
      AllPack(items, k - 1);
    }
  }

  /** A directory entry is typed `other`, has no size and no image, and
      carries its packed children; a file entry carries none. */
  lemma PackedDirectoryShape(item: RawItem)
    requires PackItem(item).Some?
    ensures var p := PackItem(item).value;
            (p.isDir != 0 <==> p.child.Some?) &&
            (p.isDir != 0 ==> p.kind == Other && p.size.None? && p.image == "" &&
                              item.children.ChildBody? && p.child.value == PackListing(item.children.listing)) &&
            (p.isDir == 0 ==> p.kind == CheckFileType(p.name) && p.size == item.size) &&
            p.path == item.path.value && p.fsId == item.fsId.value && p.name == item.serverFilename.value
  {
  }

  /** The result fields of `TeraboxFile` as one value. */
  datatype FileState = FileState(
    shortUrl: Option<string>, status: string, sign: string, timestamp: string,
    shareid: string, uk: string, list: seq<PackedFile>)

  const Initial: FileState := FileState(None, "failed", "", "", "", "", [])

  /** `getSign`: on an `ok` answer the sign and then the timestamp are
      stored and the status becomes `success`; a missing key stops the
      update where it is raised and leaves the status `failed`. */
  function SignStep(s: FileState, services: Services): FileState
    requires s.shortUrl.Some?
  {
    match services.signInfo(SignUrl(s.shortUrl.value))
    case SignUnreachable => s.(status := "failed")
    case SignBody(ok, sign, timestamp) =>
      if ok.None? || !ok.value || sign.None? then s.(status := "failed")
      else if timestamp.None? then s.(sign := sign.value, status := "failed")
      else s.(sign := sign.value, timestamp := timestamp.value, status := "success")
  }

  /** The sign helper's answer decides the status, and a success stores
      exactly what it sent. An `ok` answer with a sign stores that sign
      even when its timestamp is missing and the status stays `failed`;
      otherwise the sign is kept. The listing fields are untouched. */
  lemma SignStepMeaning(s: FileState, services: Services)
    requires s.shortUrl.Some?
    ensures var t := SignStep(s, services);
            var resp := services.signInfo(SignUrl(s.shortUrl.value));
            (t.status == "success" <==>
              resp.SignBody? && resp.ok == Some(true) && resp.sign.Some? && resp.timestamp.Some?) &&
            (t.status == "success" ==> t.sign == resp.sign.value && t.timestamp == resp.timestamp.value) &&
            (t.status != "success" ==> t.status == "failed" && t.timestamp == s.timestamp) &&
            (resp.SignBody? && resp.ok == Some(true) && resp.sign.Some? ==> t.sign == resp.sign.value) &&
            (!(resp.SignBody? && resp.ok == Some(true) && resp.sign.Some?) ==> t.sign == s.sign) &&
            t.shortUrl == s.shortUrl && t.shareid == s.shareid && t.uk == s.uk && t.list == s.list
  {
  }

  /** `getMainFile`: when the listing packs to at least one entry, `shareid`,
      `uk` and the list are stored in that order, stopping at a missing
      key; otherwise nothing changes. */
  function MainFileStep(s: FileState, services: Services): FileState
    requires s.shortUrl.Some?
  {
    match services.listing(ListingUrl(s.shortUrl.value))
    case ListingUnreachable => s
    case ListingBody(l) =>
      var files := PackListing(l);
      if files == [] || l.shareid.None? then s
      else if l.uk.None? then s.(shareid := l.shareid.value)
      else s.(shareid := l.shareid.value, uk := l.uk.value, list := files)
  }

  /** The stored list is either the old one or a non-empty packed listing
      delivered together with its `shareid` and `uk`. A listing that packs
      to a non-empty list stores its `shareid` whenever it has one, even
      when `uk` is missing and the list is kept; without a non-empty list
      and a `shareid`, the ids are kept. The sign fields are untouched. */
  lemma MainFileStepMeaning(s: FileState, services: Services)
    requires s.shortUrl.Some?
    ensures var t := MainFileStep(s, services);
            var resp := services.listing(ListingUrl(s.shortUrl.value));
            (t.list == s.list ||
              (resp.ListingBody? && t.list == PackListing(resp.body) && t.list != [] &&
               t.shareid == resp.body.shareid.value && t.uk == resp.body.uk.value)) &&
            (resp.ListingBody? && PackListing(resp.body) != [] && resp.body.shareid.Some? && resp.body.uk.Some? ==>
               t.list == PackListing(resp.body)) &&
            (resp.ListingBody? && PackListing(resp.body) != [] && resp.body.shareid.Some? ==>
               t.shareid == resp.body.shareid.value &&
               t.uk == (if resp.body.uk.Some? then resp.body.uk.value else s.uk)) &&
            (!(resp.ListingBody? && PackListing(resp.body) != [] && resp.body.shareid.Some?) ==>
               t.shareid == s.shareid && t.uk == s.uk && t.list == s.list) &&
            t.shortUrl == s.shortUrl && t.status == s.status && t.sign == s.sign && t.timestamp == s.timestamp
  {
  }

  /** The short id `search` settles on: group 1 of `surl=([^ &]+)` in the
      URL the share page ended up at, else `extract_surl_parameter(url)`
      (which may raise, or find nothing). */
  function ShortIdLookup(url: string, finalUrl: string): (r: Result<Option<string>>)
    ensures r.Failure? ==> Patterns.Capture(finalUrl, "surl=", Patterns.NotAmpersandOrSpace).None?
  {
    match Patterns.Capture(finalUrl, "surl=", Patterns.NotAmpersandOrSpace)
    case Some(id) => Success(Some(id))
    case None => TeraboxUrls.ExtractSurlParameter(url)
  }

  /** `search(url)`: whether the link resolved, and the new state. */
  function SearchStep(s: FileState, url: string, services: Services): (bool, FileState) {
    match services.sharePage(url)
    case PageUnreachable => (false, s)
    case PageStatus(code, finalUrl) =>
      if code != 200 then (false, s)
      else SearchWith(s, ShortIdLookup(url, finalUrl), services)
  }

  /** `search` once the short id has been looked up: a non-empty one is
      stored and the listing and then the sign are fetched. */
  function SearchWith(s: FileState, lookup: Result<Option<string>>, services: Services): (bool, FileState) {
    match lookup
    case Failure(_) => (false, s)
    case Success(id) =>
      var s1 := s.(shortUrl := id);
      if id.None? || id.value == [] then (false, s1)
      else (true, SignStep(MainFileStep(s1, services), services))
  }

  /** The search resolves exactly when the page answered 200 and the
      lookup found a non-empty short id. */
  lemma SearchStepLookup(s: FileState, url: string, services: Services)
    requires SearchStep(s, url, services).0
    ensures var page := services.sharePage(url);
            page.PageStatus? && page.code == 200 &&
            SearchStep(s, url, services) == SearchWith(s, ShortIdLookup(url, page.finalUrl), services)
  {
  }

  /** A resolved search stored a non-empty short id and then ran
      `getMainFile` and `getSign` on it. */
  lemma SearchWithResolved(s: FileState, lookup: Result<Option<string>>, services: Services)
    requires SearchWith(s, lookup, services).0
    ensures var t := SearchWith(s, lookup, services).1;
            lookup == Success(t.shortUrl) && t.shortUrl.Some? && t.shortUrl.value != [] &&
            t == SignStep(MainFileStep(s.(shortUrl := t.shortUrl), services), services)
  {
    var s1 := s.(shortUrl := lookup.value);
    assert SearchWith(s, lookup, services) == (true, SignStep(MainFileStep(s1, services), services));
  }

  lemma SearchStepResolved(s: FileState, url: string, services: Services)
    requires SearchStep(s, url, services).0
    ensures var t := SearchStep(s, url, services).1;
            t.shortUrl.Some? && t.shortUrl.value != [] &&
            t == SignStep(MainFileStep(s.(shortUrl := t.shortUrl), services), services)
  {
    SearchStepLookup(s, url, services);
    var page := services.sharePage(url);
    SearchWithResolved(s, ShortIdLookup(url, page.finalUrl), services);
  }

  /** An unresolved search changed at most the short id. */
  lemma SearchStepUnresolved(s: FileState, url: string, services: Services)
    requires !SearchStep(s, url, services).0
    ensures var t := SearchStep(s, url, services).1;
            t == s.(shortUrl := t.shortUrl)
  {
  }

  /** Where a resolved search took its short id from: the `surl=` of the
      URL the share page ended up at when there is one, else the link. */
  lemma SearchStepSource(s: FileState, url: string, services: Services)
    requires SearchStep(s, url, services).0
    ensures var t := SearchStep(s, url, services).1;
            var page := services.sharePage(url);
            page.PageStatus? && page.code == 200 &&
            var capture := Patterns.Capture(page.finalUrl, "surl=", Patterns.NotAmpersandOrSpace);
            (capture.Some? ==> t.shortUrl == capture) &&
            (capture.None? ==> TeraboxUrls.ExtractSurlParameter(url) == Success(t.shortUrl))
  {
    SearchStepLookup(s, url, services);
    var page := services.sharePage(url);
    SearchWithResolved(s, ShortIdLookup(url, page.finalUrl), services);
  }

  /** After a resolved search the status is `success` exactly when the sign
      helper answered for the found id, whatever the listing said. */
  lemma SearchSignedIff(url: string, services: Services)
    requires SearchStep(Initial, url, services).0
    ensures var t := SearchStep(Initial, url, services).1;
            t.shortUrl.Some? &&
            var resp := services.signInfo(SignUrl(t.shortUrl.value));
            (t.status == "success" <==>
              resp.SignBody? && resp.ok == Some(true) && resp.sign.Some? && resp.timestamp.Some?)
  {
    var t := SearchStep(Initial, url, services).1;
    SearchStepResolved(Initial, url, services);
    var s1 := Initial.(shortUrl := t.shortUrl);
    SignStepMeaning(MainFileStep(s1, services), services);
  }

  class TeraboxFile {
    var shortUrl: Option<string>
    var status: string
    var sign: string
    var timestamp: string
    var shareid: string
    var uk: string
    var list: seq<PackedFile>

    function State(): FileState
      reads this
    {
      FileState(shortUrl, status, sign, timestamp, shareid, uk, list)
    }

    /** `TeraboxFile()`: status `failed`, every other field empty and no
        short id yet. */
    constructor()
      ensures State() == Initial
    {
      shortUrl := None;
      status := "failed";
      sign := "";
      timestamp := "";
      shareid := "";
      uk := "";
      list := [];
    }

    /** `getSign()`. */
    method GetSign(services: Services)
      requires shortUrl.Some?
      modifies this
      ensures State() == SignStep(old(State()), services)
    {
      match services.signInfo(SignUrl(shortUrl.value))
      case SignUnreachable =>
        status := "failed";
      case SignBody(ok, sg, ts) =>
        if ok.None? || !ok.value || sg.None? {
          status := "failed";
        } else {
          sign := sg.value;
          if ts.None? {
            status := "failed";
          } else {
            timestamp := ts.value;
            status := "success";
          }
        }
    }

    /** `getMainFile()`. */
    method GetMainFile(services: Services)
      requires shortUrl.Some?
      modifies this
      ensures State() == MainFileStep(old(State()), services)
    {
      match services.listing(ListingUrl(shortUrl.value))
      case ListingUnreachable =>
      case ListingBody(l) =>
        var files := PackData(l);
        if files != [] && l.shareid.Some? {
          shareid := l.shareid.value;
          if l.uk.Some? {
            uk := l.uk.value;
            list := files;
          }
        }
    }

    /** `packData(req)`: one pass over the entries, appending each packed
        entry and fetching a directory's children by a recursive call. */
    method PackData(l: Listing) returns (files: seq<PackedFile>)
      ensures files == PackListing(l)
      decreases l
    {
      if !l.list.Items? {
        return [];
      }
      var items := l.list.items;
      files := [];
      var i := 0;
      while i < |items|
        invariant 0 <= i <= |items|
        invariant PackItems(items, i) == Some(files)
      {
        var item := items[i];
        if item.NotAnObject? || item.isdir.NoIsDir? || item.path.None? || item.fsId.None?
           || item.serverFilename.None? || item.isdir.IsDirNotNumber? {
          PackItemsFailureSticks(items, i, |items|);
          return [];
        }
        var packed;
        if item.isdir.n == 0 {
          if item.thumbs.ThumbsNotObject? {
            PackItemsFailureSticks(items, i, |items|);
            return [];
          }
          packed := PackedFile(item.isdir.n, item.path.value, item.fsId.value, item.serverFilename.value,
                               CheckFileType(item.serverFilename.value), item.size, Thumbnail(item.thumbs), None);
        } else {
          if item.children.ChildUnreachable? {
            PackItemsFailureSticks(items, i, |items|);
            return [];
          }
          var child := PackData(item.children.listing);
          packed := PackedFile(item.isdir.n, item.path.value, item.fsId.value, item.serverFilename.value,
                               Other, None, "", Some(child));
        }
        files := files + [packed];
        i := i + 1;
      }
    }

    /** `search(url)`. */
    method Search(url: string, services: Services) returns (found: bool)
      modifies this
      ensures (found, State()) == SearchStep(old(State()), url, services)
    {
      match services.sharePage(url)
      case PageUnreachable =>
        return false;
      case PageStatus(code, finalUrl) =>
        if code != 200 {
          return false;
        }
        var lookup := ShortIdLookup(url, finalUrl);
        assert SearchStep(old(State()), url, services) == SearchWith(old(State()), lookup, services);
        if lookup.Failure? {
          return false;
        }
        shortUrl := lookup.value;
        if shortUrl.None? || shortUrl.value == [] {
          return false;
        }
        GetMainFile(services);
        GetSign(services);
        return true;
    }
  }
}
