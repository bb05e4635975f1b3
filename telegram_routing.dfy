/** How the bot answers one incoming message: a command is lower-cased
    and answered; a message naming a Terabox domain has its link picked
    out, resolved with the extractor and delivered; anything else gets a
    fixed hint. Telegram's answers to the bot's own requests (whether the
    processing message was posted, whether the video was sent) are
    parameters. */
module BotRouting {
  import opened Wrappers
  import opened Text
  import opened BotLinks
  import Upstream
  import Extraction
  import DownloadLink
  import BotText
  import BotCommands

  /** Whether `send_processing_message` went through, and the
      `message_id` its answer carried. */
  datatype StatusMessage = StatusNotSent | StatusSent(messageId: Option<int>)

  /** What the chat shows while a link is worked on: the plain notice, or
      the processing message at each percentage it is posted or edited
      with, in order, and whether it was deleted at the end. */
  datatype StatusShown = PlainNotice | ProgressMessage(percents: seq<int>, deleted: bool)

  /** How Telegram answers the `sendVideo` request: the video was
      accepted, the answer refused it, or the request (or reading its
      answer as JSON) raised. */
  datatype VideoSend = VideoSent | VideoRefused | VideoRaised

  /** A `send_video` call: the link, with the name and size its caption
      shows. */
  datatype Video = Video(url: string, filename: string, size: string)

  /** The text `process_message` returns. */
  datatype Reply =
    | CommandAnswer(command: string)    // `handle_command` of the lower-cased text
    | Hint                              // the "Please send me a Terabox link" text
    | NoLinkFound                       // "Could not find a valid Terabox link"
    | ExtractionError(error: string)    // "Error: " and the extractor's message
    | Delivered                         // the empty reply after a sent video
    | LinkFallback(filename: string, size: string, url: string)

  /** What one message leads to. */
  datatype Turn = Turn(status: Option<StatusShown>, video: Option<Video>, reply: Reply)

  const Guidance: string :=
    "Please send me a Terabox link "
    + "to extract the direct download "
    + "URL.\n\n"
    + "Type /help to see available commands."

  const NoLinkText: string :=
    "\U{274C} Could not find a valid Terabox "
    + "link in your message. Please "
    + "make sure the URL is correct."

  const WaitNotice: string :=
    "\U{1F504} Processing your Terabox link... "
    + "Please wait."

  const ErrorReplyPrefix: string := "\U{274C} Error: "

  /** The caption sent with the video. */
  function VideoCaption(v: Video): string {
    "\U{1F4F9} <b>" + v.filename + "</b> (" + v.size + ")\n\n"
    + "\U{1F4E5} <b>Download Link:</b>\n"
    + "<a href='" + v.url + "'>" + v.filename + "</a>\n\n"
    + "<i>Direct link expires in a "
    + "few hours.</i>"
  }

  /** The advice that closes the fallback reply, after the link's anchor. */
  const FallbackAdvice: string :=
    "</a>\n\n"
    + "<i>\U{26A0}\U{FE0F} Important: This direct "
    + "download link expires in a few "
    + "hours. Download soon!</i>\n\n"
    + "<i>Note: The file is too large "
    + "to send directly through Telegram "
    + "(max 50MB). Please use the download "
    + "link above.</i>\n\n"
    + "<i>\U{1F4A1} Tip: Copy the link and "
    + "paste it in your browser's address "
    + "bar for better download reliability.</i>"

  /** Text laid out as fixed pieces around three fields contains each
      field. */
  lemma FieldsContained(a: string, x: string, b: string, y: string, c: string, z: string, d: string)
    ensures var r := a + x + b + y + c + z + d;
            Contains(r, x) && Contains(r, y) && Contains(r, z)
  {
    var r := a + x + b + y + c + z + d;
    assert r == a + x + (b + y + c + z + d);
    assert r == (a + x + b) + y + (c + z + d);
    assert r == (a + x + b + y + c) + z + d;
    ContainsMiddle(a, x, b + y + c + z + d);
    ContainsMiddle(a + x + b, y, c + z + d);
    ContainsMiddle(a + x + b + y + c, z, d);
  }

  /** The reply sent when the video could not be sent: the link with its
      name and size, and advice on using it. */
  function FallbackText(filename: string, size: string, url: string): (r: string)
    ensures Contains(r, filename) && Contains(r, size) && Contains(r, url)
    ensures |r| > 2 * |filename| + |size| + |url|
  {
    var head := "\U{2705} <b>Download Link Generated:</b>\n\n" + "<b>Filename:</b> ";
    var toSize := "\n" + "<b>Size:</b> ";
    var toUrl := "\n\n" + "<b>\U{1F4E5} Download Link:</b>\n" + "<a href='";
    var tail := "'>" + filename + FallbackAdvice;
    FieldsContained(head, filename, toSize, size, toUrl, url, tail);
    head + filename + toSize + size + toUrl + url + tail
  }

  /** The exact text of each reply. */
  function ReplyText(r: Reply): string {
    match r
    case CommandAnswer(command) => BotCommands.HandleCommand(command)
    case Hint => Guidance
    case NoLinkFound => NoLinkText
    case ExtractionError(error) => ErrorReplyPrefix + error
    case Delivered => ""
    case LinkFallback(filename, size, url) => FallbackText(filename, size, url)
  }

  /** Only the reply after a sent video is empty; every other reply says
      something. */
  lemma ReplyTextEmpty(r: Reply)
    ensures ReplyText(r) == "" <==> r == Delivered
  {
    match r
    case CommandAnswer(command) =>
    case Hint =>
      assert |Guidance| > 0;
    case NoLinkFound =>
      assert |NoLinkText| > 0;
    case ExtractionError(_) =>
      assert |ErrorReplyPrefix| > 0;
    case Delivered =>
    case LinkFallback(filename, size, url) =>
  }

  /** The texts the status message goes through. */
  function StatusTexts(s: StatusShown): seq<string> {
    match s
    case PlainNotice => [WaitNotice]
    case ProgressMessage(percents, _) =>
      seq(|percents|, i requires 0 <= i < |percents| => BotText.ProcessingText(percents[i]))
  }

  /** The percentages of the progress reports. */
  function Percents(trace: seq<Extraction.Progress>): (ps: seq<int>)
    ensures |ps| == |trace| && forall i :: 0 <= i < |trace| ==> ps[i] == trace[i].percent
  {
    seq(|trace|, i requires 0 <= i < |trace| => trace[i].percent)
  }

  /** `if status_msg_id:`: the processing message was posted and its
      answer carried a non-zero id. */
  predicate KnownId(status: StatusMessage) {
    status.StatusSent? && status.messageId.Some? && status.messageId.value != 0
  }

  /** The status message while the link is extracted: posted at 0%, then
      edited at each progress report when its id is known; the plain
      notice when it could not be posted. */
  function StatusFor(status: StatusMessage, trace: seq<Extraction.Progress>): StatusShown {
    match status
    case StatusNotSent => PlainNotice
    case StatusSent(_) =>
      ProgressMessage([0] + (if KnownId(status) then Percents(trace) else []), false)
  }

  /** `send_video` with the id known: the message is edited to 70% before
      the video is sent; once Telegram has answered, accepting or refusing
      the video, it is edited to 100% and deleted. When the request raises,
      both are skipped and the message stays at 70%. */
  function VideoStatus(shown: StatusShown, status: StatusMessage, send: VideoSend): StatusShown {
    if KnownId(status) && shown.ProgressMessage? then
      if send == VideoRaised then ProgressMessage(shown.percents + [70], false)
      else ProgressMessage(shown.percents + [70, 100], true)
    else shown
  }

  /** Delivering what the extractor returned for a link. */
  function Deliver(result: (Extraction.Outcome, seq<Extraction.Progress>),
                   status: StatusMessage, send: VideoSend): Turn
  {
    var (outcome, trace) := result;
    var shown := StatusFor(status, trace);
    match outcome
    case ExtractionFailed(e) => Turn(Some(shown), None, ExtractionError(e))
    case Extracted(url, filename, size) =>
      Turn(Some(VideoStatus(shown, status, send)), Some(Video(url, filename, size)),
           if send == VideoSent then Delivered else LinkFallback(filename, size, url))
  }

  /** `process_message(text, chat_id)`, with the services answering as
      `services`, worker `relay` picked for wrapping, the processing
      message posted as `status` says and Telegram answering the video as
      `send` says. */
  function Respond(text: string, services: Upstream.Services, relay: nat,
                   status: StatusMessage, send: VideoSend): Turn
    requires relay < |DownloadLink.BaseUrls|
  {
    if StartsWith(text, "/") then Turn(None, None, CommandAnswer(Lower(text)))
    else if !Mentions(text, GateDomains) then Turn(None, None, Hint)
    else
      match UrlFromText(text)
      case None => Turn(None, None, NoLinkFound)
      case Some(link) =>
        if link == [] then Turn(None, None, NoLinkFound)
        else Deliver(Extraction.Extract(link, services, relay), status, send)
  }

  /** Commands are case-insensitive: two texts starting with `/` that
      lower-case alike get the same answer, `handle_command` of the
      lower-cased text, with no status message and no video. */
  lemma RespondCommands(a: string, b: string, services: Upstream.Services, relay: nat,
                        status: StatusMessage, send: VideoSend)
    requires relay < |DownloadLink.BaseUrls|
    requires StartsWith(a, "/") && Lower(a) == Lower(b)
    ensures Respond(b, services, relay, status, send) == Respond(a, services, relay, status, send)
    ensures Respond(a, services, relay, status, send) == Turn(None, None, CommandAnswer(Lower(a)))
  {
    assert Lower(b)[0] == LowerChar(b[0]) == Lower(a)[0] == '/';
    assert StartsWith(b, "/");
  }

  /** Text that is not a command and names no gate domain gets the fixed
      hint and nothing else; it is never answered with an error. */
  lemma RespondHint(text: string, services: Upstream.Services, relay: nat,
                    status: StatusMessage, send: VideoSend)
    requires relay < |DownloadLink.BaseUrls|
    requires !StartsWith(text, "/") && !Mentions(text, GateDomains)
    ensures Respond(text, services, relay, status, send) == Turn(None, None, Hint)
  {
  }

  /** Text that is not a command and names a gate domain always reaches the
      extractor, with the link `extract_url_from_text` picks; the
      "could not find" reply is never given. */
  lemma RespondExtracts(text: string, services: Upstream.Services, relay: nat,
                        status: StatusMessage, send: VideoSend)
    requires relay < |DownloadLink.BaseUrls|
    requires !StartsWith(text, "/") && Mentions(text, GateDomains)
    ensures UrlFromText(text).Some? && UrlFromText(text).value != []
    ensures Respond(text, services, relay, status, send)
            == Deliver(Extraction.Extract(UrlFromText(text).value, services, relay), status, send)
    ensures Respond(text, services, relay, status, send).reply != NoLinkFound
  {
    GatedTextHasUrl(text);
  }

  /** A failed extraction is answered with its error and no video; a
      successful one sends the extracted link as a video, and the reply
      is the empty one exactly when Telegram accepted the video. Otherwise
      it is the fallback that offers the same link, name and size. */
  lemma DeliverOutcome(result: (Extraction.Outcome, seq<Extraction.Progress>),
                       status: StatusMessage, send: VideoSend)
    ensures var t := Deliver(result, status, send);
            var outcome := result.0;
            t.status.Some? &&
            (outcome.ExtractionFailed? ==> t.video.None? && t.reply == ExtractionError(outcome.error)) &&
            (outcome.Extracted? ==>
               t.video == Some(Video(outcome.url, outcome.filename, outcome.size)) &&
               (t.reply == Delivered <==> send == VideoSent) &&
               (send != VideoSent ==> t.reply == LinkFallback(outcome.filename, outcome.size, outcome.url)))
  {
  }

  /** The only errors a message can be answered with are the extractor's
      five fixed messages and the message of the exception a malformed link
      raises. */
  lemma RespondErrors(text: string, services: Upstream.Services, relay: nat,
                      status: StatusMessage, send: VideoSend)
    requires relay < |DownloadLink.BaseUrls|
    ensures var r := Respond(text, services, relay, status, send).reply;
            r.ExtractionError? ==>
              r.error in Extraction.SharedErrors || r.error == Extraction.ErrorPrefix + "Invalid IPv6 URL"
  {
    if !StartsWith(text, "/") && Mentions(text, GateDomains) {
      RespondExtracts(text, services, relay, status, send);
      var link := UrlFromText(text).value;
      Extraction.ExtractErrors(link, services, relay);
      DeliverOutcome(Extraction.Extract(link, services, relay), status, send);
    }
  }

  /** With its id known, the processing message is posted at 0% and edited
      at each progress report, at ever higher percentages; without an id
      it stays at 0%. */
  lemma StatusRises(id: Option<int>, trace: seq<Extraction.Progress>)
    requires |trace| >= 1 && trace[0].percent > 0
    requires Extraction.Rising(trace)
    ensures var ps := StatusFor(StatusSent(id), trace).percents;
            ps[0] == 0 &&
            (forall i, j :: 0 <= i < j < |ps| ==> ps[i] < ps[j]) &&
            (|ps| == 1 <==> id.None? || id.value == 0)
  {
    var ps := StatusFor(StatusSent(id), trace).percents;
    if id.Some? && id.value != 0 {
      var tail := Percents(trace);
      assert ps == [0] + tail;
      forall i, j | 0 <= i < j < |ps|
        ensures ps[i] < ps[j]
      {
        if i == 0 {
          assert ps[j] == trace[j - 1].percent;
          assert trace[0].percent <= trace[j - 1].percent;
        }
      }
    }
  }

  /** With the id known, a failed extraction leaves the processing message
      at the reports it got; a successful one adds 70%, and then 100% and
      the deletion unless the video request raised. */
  lemma DeliverStatus(result: (Extraction.Outcome, seq<Extraction.Progress>), id: int, send: VideoSend)
    requires id != 0
    ensures var t := Deliver(result, StatusSent(Some(id)), send);
            var reports := [0] + Percents(result.1);
            t.status == Some(if result.0.ExtractionFailed? then ProgressMessage(reports, false)
                             else if send == VideoRaised then ProgressMessage(reports + [70], false)
                             else ProgressMessage(reports + [70, 100], true))
  {
  }

  /** For a message that reaches the extractor with the processing message
      posted and its id known, the chat shows the processing message at
      0% and then at every percentage the extractor reports, rising; a
      successful extraction then shows 70%, so after a share link's 80%
      the bar steps back, and once Telegram has answered the video, 100%
      and the deletion. */
  lemma RespondProgress(text: string, services: Upstream.Services, relay: nat,
                        id: int, send: VideoSend)
    requires relay < |DownloadLink.BaseUrls|
    requires !StartsWith(text, "/") && Mentions(text, GateDomains) && id != 0
    ensures UrlFromText(text).Some? &&
            var (outcome, trace) := Extraction.Extract(UrlFromText(text).value, services, relay);
            var t := Respond(text, services, relay, StatusSent(Some(id)), send);
            var reports := [0] + Percents(trace);
            |reports| >= 2 && (forall i, j :: 0 <= i < j < |reports| ==> reports[i] < reports[j]) &&
            (outcome.Extracted? ==> reports[|reports| - 1] in {60, 80}) &&
            t.status == Some(if outcome.ExtractionFailed? then ProgressMessage(reports, false)
                             else if send == VideoRaised then ProgressMessage(reports + [70], false)
                             else ProgressMessage(reports + [70, 100], true))
  {
    RespondExtracts(text, services, relay, StatusSent(Some(id)), send);
    var link := UrlFromText(text).value;
    var result := Extraction.Extract(link, services, relay);
    Extraction.ExtractTraceRises(link, services, relay);
    StatusRises(Some(id), result.1);
    DeliverStatus(result, id, send);
  }
}
