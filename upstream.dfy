/** What the bot receives from the services it calls: the share page, the
    share listing API, the sign helper API and the two download-link
    endpoints. Each service is a total function from what is asked of it to
    what comes back, with one alternative for "the request raised" (a
    network failure, or a body that is not JSON). JSON fields that the code
    reads with `[]` are `Option`s (`None` = the key is missing). */
module Upstream {
  import opened Wrappers

  /** `requests.get(url, allow_redirects=True)`: the final status code and
      the URL after redirects. */
  datatype Page = PageUnreachable | PageStatus(code: int, finalUrl: string)

  /** The `isdir` field: missing, a value `int()` accepts (its integer), or
      one it rejects. */
  datatype IsDirField = NoIsDir | IsDirNumber(n: int) | IsDirNotNumber

  /** The `thumbs` field: missing, an object with or without `url3`, or
      something without `.get`. */
  datatype ThumbsField = NoThumbs | Thumbs(url3: Option<string>) | ThumbsNotObject

  /** One entry of a listing's `list`. A directory entry also carries the
      response the listing API gives when the code asks for that
      directory's children (`getChildFile`), so that the tree of responses
      is finite by construction. */
  datatype RawItem =
    | NotAnObject
    | RawItem(isdir: IsDirField, path: Option<string>, fsId: Option<string>,
              serverFilename: Option<string>, size: Option<int>, thumbs: ThumbsField,
              children: ChildResponse)

  datatype ChildResponse = ChildUnreachable | ChildBody(listing: Listing)

  /** The `list` field: missing, not a list, or a list of entries. */
  datatype ListField = NoList | NotAList | Items(items: seq<RawItem>)

  /** A listing body: `list`, `shareid` and `uk`. */
  datatype Listing = Listing(list: ListField, shareid: Option<string>, uk: Option<string>)

  datatype ListingResponse = ListingUnreachable | ListingBody(body: Listing)

  /** The sign helper's body: the truth value of `ok` (missing: `None`),
      `sign` and `timestamp`. */
  datatype SignResponse =
    | SignUnreachable
    | SignBody(ok: Option<bool>, sign: Option<string>, timestamp: Option<string>)

  /** The JSON body posted to both download-link endpoints, every value
      already passed through `str`. */
  datatype LinkParams = LinkParams(shareid: string, uk: string, sign: string, timestamp: string, fsId: string)

  /** A download-link endpoint's answer: its `downloadLink` field, if any. */
  datatype LinkResponse = LinkUnreachable | LinkBody(downloadLink: Option<string>)

  /** The services, each answering what it is asked. */
  datatype Services = Services(
    sharePage: string -> Page,
    listing: string -> ListingResponse,
    signInfo: string -> SignResponse,
    primaryLink: LinkParams -> LinkResponse,
    fallbackLink: LinkParams -> LinkResponse)

  /** The listing API request of `getMainFile`; the share id is sent with a
      leading `1`. */
  function ListingUrl(shortUrl: string): (u: string)
    ensures |u| == |ListingPrefix| + 1 + |shortUrl| + |ListingSuffix|
  {
    ListingPrefix + "1" + shortUrl + ListingSuffix
  }

  const ListingPrefix: string :=
    "https://www.terabox.com/api/shorturlinfo"
    + "?app_id=250528&shorturl="
  const ListingSuffix: string := "&root=1"

  /** The sign helper request of `getSign`. */
  function SignUrl(shortUrl: string): (u: string)
    ensures |u| == |SignPrefix| + |shortUrl| + |SignSuffix|
  {
    SignPrefix + shortUrl + SignSuffix
  }

  const SignPrefix: string :=
    "https://terabox.hnn.workers.dev/api/get-"
    + "info?shorturl="
  const SignSuffix: string := "&pwd="

  /** Different share ids are asked for with different requests. */
  lemma RequestsDistinguishIds(a: string, b: string)
    requires a != b
    ensures ListingUrl(a) != ListingUrl(b) && SignUrl(a) != SignUrl(b)
  {
    var n := |ListingPrefix| + 1;
    if |a| == |b| {
      var k :| 0 <= k < |a| && a[k] != b[k];
      assert ListingUrl(a)[n + k] == a[k] && ListingUrl(b)[n + k] == b[k];
      assert SignUrl(a)[|SignPrefix| + k] == a[k] && SignUrl(b)[|SignPrefix| + k] == b[k];
    }
  }
}
