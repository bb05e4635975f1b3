/** `TeraboxLink`: asks the two download-link endpoints for a file and
    keeps what they return; the second endpoint's link is wrapped in one of
    six relay workers. */
module DownloadLink {
  import opened Wrappers
  import opened Text
  import opened Upstream
  import Utf8
  import Percent
  import Base64Url
  import UrlParse

  /** The relay worker names, in their order in the source. */
  const BaseUrls: seq<string> := [
    "plain-grass-58b2.comprehensiveaquamarine",
    "royal-block-6609.ninnetta7875",
    "bold-hall-f23e.7rochelle",
    "winter-thunder-0360.belitawhite",
    "fragrant-term-0df9.elviraeducational",
    "purple-glitter-924b.miguelalocal"
  ]

  /** The part of a wrapped link before its base64 payload. */
  function RelayPrefix(relay: nat): string
    requires relay < |BaseUrls|
  {
    "https://" + BaseUrls[relay] + ".workers.dev/?url="
  }

  /** `wrap_url(original)` with `random.choice` having picked worker
      `relay`: the link is percent-encoded with nothing kept safe, encoded
      as UTF-8 (plain ASCII by then), and written in URL-safe base64 as the
      `url` field of the worker's address. */
  function WrapUrl(relay: nat, original: string): (w: string)
    requires relay < |BaseUrls|
    ensures StartsWith(w, RelayPrefix(relay))
    ensures forall i :: |RelayPrefix(relay)| <= i < |w| ==> Base64Url.InAlphabet(w[i])
  {
    RelayPrefix(relay) + Base64Url.Encode(Utf8.Encode(Percent.Quote(original)))
  }

  /** What a relay worker does with the address: take the `url` field of
      its query, decode it from base64 and undo the percent-encoding. */
  function Unwrap(w: string): Option<string> {
    var (_, query) := UrlParse.SplitFirst(w, '?');
    if !StartsWith(query, "url=") then None
    else
      match Base64Url.Decode(query[4..])
      case None => None
      case Some(bytes) => Some(Percent.Unquote(Utf8.Decode(bytes)))
  }

  /** No worker name contains `?`. */
  lemma WorkerNameHasNoQuery(relay: nat)
    requires relay < |BaseUrls|
    ensures '?' !in BaseUrls[relay]
  {
    if relay < 3 {
      EarlyWorkerNames(relay);
    } else {
      LateWorkerNames(relay);
    }
  }

  lemma EarlyWorkerNames(relay: nat)
    requires relay < 3
    ensures '?' !in BaseUrls[relay]
  {
    if relay == 0 {
      assert '?' !in BaseUrls[0];
    } else if relay == 1 {
      assert '?' !in BaseUrls[1];
    } else {
      assert '?' !in BaseUrls[2];
    }
  }

  lemma LateWorkerNames(relay: nat)
    requires 3 <= relay < |BaseUrls|
    ensures '?' !in BaseUrls[relay]
  {
    if relay == 3 {
      assert '?' !in BaseUrls[3];
    } else if relay == 4 {
      assert '?' !in BaseUrls[4];
    } else {
      assert '?' !in BaseUrls[5];
    }
  }

  /** The worker's name never contains `?`, so the query of a wrapped link
      starts right after the worker's address. */
  lemma RelayQuery(relay: nat, payload: string)
    requires relay < |BaseUrls|
    ensures UrlParse.SplitFirst(RelayPrefix(relay) + payload, '?').1 == "url=" + payload
  {
    var head := "https://" + BaseUrls[relay] + ".workers.dev/";
    WorkerNameHasNoQuery(relay);
    assert '?' !in head;
    assert RelayPrefix(relay) + payload == head + ['?'] + ("url=" + payload);
    UrlParse.SplitFirstAt(head, '?', "url=" + payload);
  }

  /** Every wrapped link unwraps to the link it was made from, whichever
      worker was picked. */
  lemma UnwrapWrapUrl(relay: nat, original: string)
    requires relay < |BaseUrls|
    ensures Unwrap(WrapUrl(relay, original)) == Some(original)
  {
    var quoted := Percent.Quote(original);
    var bytes := Utf8.Encode(quoted);
    var payload := Base64Url.Encode(bytes);
    RelayQuery(relay, payload);
    assert ("url=" + payload)[4..] == payload;
    Base64Url.DecodeEncode(bytes);
    Utf8.DecodeEncode(quoted);
    Percent.UnquoteQuote(original);
  }

  /** Different links wrap to different addresses, through any one worker. */
  lemma WrapUrlInjective(relay: nat, a: string, b: string)
    requires relay < |BaseUrls| && WrapUrl(relay, a) == WrapUrl(relay, b)
    ensures a == b
  {
    UnwrapWrapUrl(relay, a);
    UnwrapWrapUrl(relay, b);
  }

  const PrimaryKey: string := "url_1"
  const FallbackKey: string := "url_2"

  /** `result` of a `TeraboxLink`: the status and the links collected so far. */
  datatype LinkState = LinkState(status: string, links: map<string, string>)

  const NoLinks: LinkState := LinkState("failed", map[])

  /** The `downloadLink` an endpoint answered with, if its request did not
      raise and the field is there. */
  function Offered(r: LinkResponse): Option<string> {
    if r.LinkBody? then r.downloadLink else None
  }

  /** `generate()`: the first endpoint's `downloadLink` is kept as `url_1`,
      the second's is wrapped and kept as `url_2`; each is skipped when its
      request raises or its answer has no `downloadLink`. The status
      becomes `success` when any link is held. */
  function GenerateStep(s: LinkState, params: LinkParams, services: Services, relay: nat): LinkState
    requires relay < |BaseUrls|
  {
    var o1 := Offered(services.primaryLink(params));
    var o2 := Offered(services.fallbackLink(params));
    var l1 := if o1.Some? then s.links[PrimaryKey := o1.value] else s.links;
    var l2 := if o2.Some? then l1[FallbackKey := WrapUrl(relay, o2.value)] else l1;
    LinkState(if |l2| != 0 then "success" else s.status, l2)
  }

  /** From a fresh object: `url_1` is the first endpoint's link as sent,
      `url_2` unwraps to the second endpoint's link, and nothing else is
      held. */
  lemma GenerateLinks(params: LinkParams, services: Services, relay: nat)
    requires relay < |BaseUrls|
    ensures var t := GenerateStep(NoLinks, params, services, relay);
            var o1 := Offered(services.primaryLink(params));
            var o2 := Offered(services.fallbackLink(params));
            (PrimaryKey in t.links <==> o1.Some?) &&
            (PrimaryKey in t.links ==> t.links[PrimaryKey] == o1.value) &&
            (FallbackKey in t.links <==> o2.Some?) &&
            (FallbackKey in t.links ==> Unwrap(t.links[FallbackKey]) == o2) &&
            t.links.Keys <= {PrimaryKey, FallbackKey}
  {
    var o2 := Offered(services.fallbackLink(params));
    if o2.Some? {
      UnwrapWrapUrl(relay, o2.value);
    }
  }

  /** The status is `success` exactly when either endpoint answered with a
      link, and stays `failed` otherwise. */
  lemma GenerateStatus(params: LinkParams, services: Services, relay: nat)
    requires relay < |BaseUrls|
    ensures var t := GenerateStep(NoLinks, params, services, relay);
            (t.status == "success" <==>
              Offered(services.primaryLink(params)).Some? || Offered(services.fallbackLink(params)).Some?) &&
            (t.status != "success" ==> t.status == "failed")
  {
    var t := GenerateStep(NoLinks, params, services, relay);
    assert PrimaryKey in t.links ==> |t.links| != 0;
    assert FallbackKey in t.links ==> |t.links| != 0;
  }

  class TeraboxLink {
    const params: LinkParams
    var status: string
    var links: map<string, string>

    function State(): LinkState
      reads this
    {
      LinkState(status, links)
    }

    /** `TeraboxLink(shareid, uk, sign, timestamp, fs_id)`: no links yet,
        status `failed`, and the request body built from the arguments. */
    constructor(shareid: string, uk: string, sign: string, timestamp: string, fsId: string)
      ensures State() == NoLinks
      ensures params == LinkParams(shareid, uk, sign, timestamp, fsId)
    {
      params := LinkParams(shareid, uk, sign, timestamp, fsId);
      status := "failed";
      links := map[];
    }

    /** `generate()`, with `relay` the worker `random.choice` picks. */
    method Generate(services: Services, relay: nat)
      requires relay < |BaseUrls|
      modifies this
      ensures State() == GenerateStep(old(State()), params, services, relay)
    {
      var first := Offered(services.primaryLink(params));
      if first.Some? {
        links := links[PrimaryKey := first.value];
      }
      var second := Offered(services.fallbackLink(params));
      if second.Some? {
        links := links[FallbackKey := WrapUrl(relay, second.value)];
      }
      if |links| != 0 {
        status := "success";
      }
    }
  }
}
