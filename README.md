# Terabox download bot — a verified model of its link resolution

The bot is sent a chat message. It finds a Terabox link in the text, turns
it into a direct download link, and replies with the video or with the
link. This project models the logic between the two ends of that path:

- **Reading links** (`terabox_urls.dfy`, `patterns.dfy`, `urlparse.dfy`).
  `normalize_url` keeps scheme, host and path, and rewrites the
  `teraboxapp.com` mirror to `terabox.com`.
  `extract_surl_parameter` reads the share id from the `surl` query field or
  from a `/s/<id>` path.
  `is_direct_download_url` needs the `d-….terabox.com/file/` host and one of
  the `size=`, `fin=….mp4` or `fid=` markers.
  `extract_filename_from_url` reads `fn=`, or else `fin=`.
  `format_file_size` prints `B`, `KB`, `MB` or `GB`.
  The regular expressions are written out as predicates over positions.
  `urlparse`, `parse_qs`, `quote`/`unquote`, UTF-8 and URL-safe base64 are
  modelled as far as these functions use them (`text.dfy`, `utf8.dfy`,
  `percent.dfy`, `base64url.dfy`).
- **`TeraboxFile`** (`terabox_file.dfy`). A class whose `search`,
  `getMainFile` and `getSign` update the share id, listing, sign and status
  in place. `packData` turns a listing into file records, with
  `checkFileType` classifying names by extension.
- **`TeraboxLink`** (`terabox_link.dfy`). A class whose `generate` asks the
  two download-link endpoints and keeps `url_1` and the relay-wrapped
  `url_2`. `wrap_url` is paired with the relay's unwrapping.
- **`extract_terabox_download_link`** (`terabox_extract.dfy`). Returns the
  result record and the sequence of progress reports, both as a function
  and as methods driving the two classes.
- **The Telegram side**: `telegram_text.dfy`, `telegram_commands.dfy`,
  `telegram_links.dfy` and `telegram_routing.dfy`.
  - the progress bar and the three stage labels of the processing message;
  - `handle_command`;
  - `extract_url_from_text`, with its trailing-punctuation loop;
  - the routing of `process_message`: which reply each message gets, and
    what the status message shows.

The services the bot calls are inputs (`upstream.dfy`): the share page,
the listing API, the sign helper and the two link endpoints. Each is a
total function from request to response, including the response "the
request raised". A directory's child listing is part of the listing it
sits in. `random.choice` of a relay worker is an index.

## Model

| member | source | states |
|---|---|---|
| Text.LowerIdempotent | terabox_utils.py:190 | lower-casing twice is lower-casing once, so names and commands are compared in one case |
| Text.Words | telegram_utils.py:516 | every word of `split()` is non-empty and free of whitespace |
| Text.WordsKeepInfix | telegram_utils.py:516-518 | a whitespace-free piece of the text lies inside some word of `split()` |
| Text.WordsInText | telegram_utils.py:516-518 | every word of `split()` occurs in the text |
| Text.SplitOnFirst | terabox_utils.py:63 | `split(sep)` of `head + sep + tail` is `head` followed by the split of `tail` |
| Text.ParseNatToString | terabox_utils.py:313 | `int(str(n)) == n` for every natural number |
| Text.NatToStringInjective | terabox_utils.py:313 | different sizes are printed differently |
| Utf8.EncodeChar | terabox_utils.py:270 | a character encodes to 1 to 4 bytes, one byte exactly for ASCII |
| Utf8.DecodeEncode | terabox_utils.py:270 | decoding the UTF-8 encoding of any string gives the string back |
| Percent.Quote | terabox_utils.py:269 | `quote(s, safe='')` is pure ASCII |
| Percent.QuoteChars | terabox_utils.py:269 | every character of `quote(s, safe='')` is unreserved, `%` or a hex digit; non-empty input quotes to non-empty output |
| Percent.UnquoteQuote | terabox_utils.py:269 | `unquote(quote(s, safe=''))` is `s` for every string |
| Percent.UnquoteNoPercent | terabox_utils.py:440 | `unquote` leaves text without `%` unchanged |
| Base64Url.Encode | terabox_utils.py:270 | the encoding has length 4·⌈n/3⌉ and uses only the URL-safe alphabet and `=` |
| Base64Url.Decode | terabox_utils.py:270 | only text whose length is a multiple of 4 decodes |
| Base64Url.DecodeEncode | terabox_utils.py:270 | decoding the URL-safe base64 encoding of any bytes gives them back |
| UrlParse.FindFirst | terabox_utils.py:37 | the first delimiter position: none before it, a delimiter at it |
| UrlParse.SplitFirst | terabox_utils.py:37 | the part before the first separator holds no separator, and the two parts rebuild the text |
| UrlParse.Parse | terabox_utils.py:37 | `urlparse` fails only with "Invalid IPv6 URL" (without the bracketed-host and NFKC checks, see Left out); the network location holds no `/?#`, the path no `?#`, the query no `#` |
| UrlParse.ParseCompose | terabox_utils.py:37-38 | `urlparse` of well-formed scheme, host, path, query and fragment, put together, gives them back |
| UrlParse.ComposeNoUnsafe | terabox_utils.py:37 | a URL put together from well-formed parts has no tab or line break for `urlparse` to remove |
| UrlParse.FirstValue | terabox_utils.py:58-60 | `parse_qs(q)[name][0]` is absent exactly when no non-blank field has that name |
| UrlParse.FirstField | terabox_utils.py:58-60 | the position of the first field with a name, with none earlier |
| Patterns.Run | terabox_utils.py:418 | a greedy character-class run: every character inside is in the class, the next is not |
| Patterns.RunExact | terabox_utils.py:418 | a run of class characters ended by a non-class character is exactly the greedy run |
| Patterns.HostAtIff | terabox_utils.py:418 | the greedy reading of `d-[a-z0-9-]+.terabox.com/file/` matches exactly where a backtracking one does |
| Patterns.FirstCapture | terabox_utils.py:437 | the leftmost position where a `lit` plus class-run capture matches |
| Patterns.Capture | terabox_utils.py:437-446 | `re.search(lit + '([class]+)')` fails exactly when no position matches; a match is a non-empty run of class characters |
| Patterns.CaptureAfter | terabox_utils.py:437-446 | after a prefix without the literal, the capture is exactly the class run placed after the literal |
| Patterns.CaptureIs | terabox_utils.py:437-446 | the capture at the first occurrence of the literal is what `re.search` returns |
| Patterns.FirstDirectLink | telegram_utils.py:507-511 | the leftmost position where the direct-link pattern matches |
| Patterns.DirectLinkEnd | telegram_utils.py:507 | the greedy `[^\s]+` ends at whitespace or at the end of the text |
| Patterns.DirectLink | telegram_utils.py:507-513 | the direct-link search fails exactly when no position matches; a match is non-empty |
| Upstream.RequestsDistinguishIds | terabox_utils.py:117-118 | different share ids are asked for with different listing and sign requests |
| TeraboxUrls.ReplaceAllAbsent | terabox_utils.py:41-42 | `replace` changes nothing when the pattern does not occur |
| TeraboxUrls.ReplaceAllKeepsOut | terabox_utils.py:41-42 | `replace` adds no character that neither the input nor the replacement has |
| TeraboxUrls.MirrorGone | terabox_utils.py:41-42 | after replacing `teraboxapp.com` with `terabox.com`, no `teraboxapp.com` is left |
| TeraboxUrls.RewriteMirror | terabox_utils.py:41-42 | the rewritten base has no mirror host and gains no `?` or `#` |
| TeraboxUrls.BaseUrlNoQueryOrFragment | terabox_utils.py:38 | `scheme://netloc+path` holds no `?` and no `#` |
| TeraboxUrls.NormalizeUrl | terabox_utils.py:26-44 | fails exactly when `urlparse` does; a result has no query, no fragment and no mirror host |
| TeraboxUrls.NormalizeCompose | terabox_utils.py:36-44 | a well-formed link normalises to its scheme, host and path with the mirror host rewritten |
| TeraboxUrls.ExtractSurlParameter | terabox_utils.py:46-67 | fails exactly when `urlparse` fails |
| TeraboxUrls.SurlFromQuery | terabox_utils.py:56-60 | a link whose query has a non-blank `surl` field yields the first such value |
| TeraboxUrls.SurlOfQuery | terabox_utils.py:57-60 | the `surl` query field wins over the path |
| TeraboxUrls.ShareSegments | terabox_utils.py:63-64 | the segments of `/s/<id>…` are `''`, `s` and the id |
| TeraboxUrls.SurlFromSharePath | terabox_utils.py:62-65 | a `/s/<id>` link without a `surl` field yields the id |
| TeraboxUrls.SurlAbsent | terabox_utils.py:56-67 | a link with no non-blank `surl` field and a path not starting with `/s/` yields `None` |
| TeraboxUrls.NoNodeNotDirect | terabox_utils.py:416-424 | a link without `d-` is never a direct download link |
| TeraboxUrls.SizeMarkedHostIsDirect | terabox_utils.py:416-424 | the host pattern together with a `size=` marker makes a link direct |
| TeraboxUrls.ExtractFilenameFromUrl | terabox_utils.py:427-449 | no name exactly when neither an `fn=` nor a `fin=` value is present |
| TeraboxUrls.QuotedField | terabox_utils.py:437 | a quoted non-empty name is a non-empty run without `&` |
| TeraboxUrls.FilenameRoundTrip | terabox_utils.py:437-441 | the first `fn=` field holding `quote(name)` reads back as `name` |
| TeraboxUrls.FilenameFromFin | terabox_utils.py:443-447 | with no `fn=` field, the first `fin=` field holding `quote(name)` reads back as `name` |
| TeraboxUrls.SizeParameter | terabox_utils.py:310-314 | a size is read exactly when `size=\d+` matches |
| TeraboxUrls.SizeRoundTrip | terabox_utils.py:310-314 | the first `size=` field holding `str(n)` reads back as `n` |
| TeraboxUrls.RoundHalfEvenNearest | terabox_utils.py:464 | the rounded quotient is within half a unit, and ties go to the even neighbour |
| TeraboxUrls.Hundredths | terabox_utils.py:464 | a two-decimal number has no space |
| TeraboxUrls.ReadHundredthsOf | terabox_utils.py:464 | a printed two-decimal number reads back as the same number of hundredths |
| TeraboxUrls.UnitOf | terabox_utils.py:461-468 | `B` exactly below 1024; from 1024 on the scale is between 1024 and the size; below GB the size is under 1024 of the unit |
| TeraboxUrls.FormatFileSize | terabox_utils.py:461-468 | the text ends with a space and the unit chosen for the size |
| TeraboxUrls.FormatFileSizeMeaning | terabox_utils.py:451-468 | the text is number, space, unit; below 1024 the number is exactly the byte count; otherwise it is the size in that unit rounded to hundredths, 1.00 to 1024.00 below GB |
| TeraboxUrls.HundredthsRange | terabox_utils.py:461-466 | a size within one unit rounds to between 1.00 and 1024.00 of it |
| FileInfo.CheckFileTypeIgnoresCase | terabox_utils.py:188-190 | the type of a name does not depend on its case |
| FileInfo.ImageExtensionIsImage | terabox_utils.py:188-192 | a name ending in an image extension is an image |
| FileInfo.VideoExtensionIsVideo | terabox_utils.py:188-194 | a name ending in a video extension is a video; no image extension gets in the way |
| FileInfo.AudioExtensionIsAudio | terabox_utils.py:188-196 | a name ending in an audio extension is audio; no image or video extension gets in the way |
| FileInfo.PackItemsInOrder | terabox_utils.py:165-182 | packing keeps the count and the order of the listing's entries, each packed on its own |
| FileInfo.PackItemsFailureSticks | terabox_utils.py:184-186 | one malformed entry makes the whole packing fail |
| FileInfo.PackListingEntries | terabox_utils.py:162-186 | a listing whose entries all pack gives one record per entry, in order; otherwise `[]` |
| FileInfo.PackedDirectoryShape | terabox_utils.py:167-180 | directories get type `other`, no size, no thumbnail and their packed child listing; files get their `checkFileType` and size and no child |
| FileInfo.SignStepMeaning | terabox_utils.py:115-140 | status is `success` exactly when the helper answered `ok` with a sign and a timestamp, which are then both stored; an `ok` answer with a sign but no timestamp stores the sign alone and leaves `failed`; any other answer keeps sign and timestamp; the listing fields never change |
| FileInfo.MainFileStepMeaning | terabox_utils.py:142-153 | a listing that packs to a non-empty list with a share id stores that share id, and the uk too when one came; the list is replaced exactly when both ids came; any other answer changes nothing; the sign fields never change |
| FileInfo.ShortIdLookup | terabox_utils.py:95-102 | the lookup fails only when the redirected URL has no `surl=` field |
| FileInfo.SearchStepLookup | terabox_utils.py:90-102 | a resolved search had a page answered with 200 |
| FileInfo.SearchWithResolved | terabox_utils.py:95-108 | a resolved search holds a non-empty share id and then fetched the listing and the sign, in that order |
| FileInfo.SearchStepResolved | terabox_utils.py:88-108 | a resolved search holds a non-empty share id and ends with the listing and then the sign fetched |
| FileInfo.SearchStepUnresolved | terabox_utils.py:88-113 | an unresolved search changes nothing but the share id |
| FileInfo.SearchStepSource | terabox_utils.py:95-102 | the share id comes from the redirected URL's `surl=`, or else from `extract_surl_parameter` of the link |
| FileInfo.SearchSignedIff | terabox_utils.py:105-108 | after a resolved search the status is `success` exactly when the sign helper answered `ok` with a sign and a timestamp |
| FileInfo.TeraboxFile.constructor | terabox_utils.py:75-86 | a new object holds no share id, status `failed` and an empty list |
| FileInfo.TeraboxFile.GetSign | terabox_utils.py:115-140 | the new state is the sign step applied to the old one, whose effect `SignStepMeaning` states |
| FileInfo.TeraboxFile.GetMainFile | terabox_utils.py:142-153 | the new state is the listing step applied to the old one, whose effect `MainFileStepMeaning` states |
| FileInfo.TeraboxFile.PackData | terabox_utils.py:162-186 | the loop returns the packed listing |
| FileInfo.TeraboxFile.Search | terabox_utils.py:88-113 | the answer and the new state are those of the search step |
| DownloadLink.WrapUrl | terabox_utils.py:266-271 | a wrapped link is a worker's address followed only by URL-safe base64 |
| DownloadLink.RelayQuery | terabox_utils.py:271 | the query of a wrapped link is `url=` and the payload |
| DownloadLink.UnwrapWrapUrl | terabox_utils.py:266-271 | whichever worker is picked, unwrapping a wrapped link gives the original link |
| DownloadLink.WrapUrlInjective | terabox_utils.py:266-271 | different links wrap to different addresses |
| DownloadLink.GenerateLinks | terabox_utils.py:241-260 | `url_1` is held exactly when the first endpoint sent a link, verbatim; `url_2` exactly when the second did, wrapped so that it unwraps to it; no other key; one failing never stops the other |
| DownloadLink.GenerateStatus | terabox_utils.py:261-262 | the status is `success` exactly when either endpoint sent a link, `failed` otherwise |
| DownloadLink.TeraboxLink.constructor | terabox_utils.py:207-239 | a new object holds no links, status `failed` and the request body from its arguments |
| DownloadLink.TeraboxLink.Generate | terabox_utils.py:241-264 | the new state is the generate step applied to the old one, whose effect `GenerateLinks` and `GenerateStatus` state |
| Extraction.DescribeDirect | terabox_utils.py:297-325 | a direct link is returned as it is, with a non-empty name, after reports at 5, 40 and 60 |
| Extraction.DirectTrace | terabox_utils.py:293-318 | the direct path reports 5, 40, 60, rising |
| Extraction.DirectLinkKept | terabox_utils.py:297-325 | a direct download link is always a success holding that same link (sizes as modelled, see Left out) |
| Extraction.DirectNameFromFn | terabox_utils.py:304-307 | the name is the decoded value of the first `fn=` field |
| Extraction.DirectSizeFromQuery | terabox_utils.py:309-314 | the size is `format_file_size` of the first `size=` field |
| Extraction.DirectFallbacks | terabox_utils.py:304-314 | without `fn=`/`fin=` the name is `TeraboxFile`; without `size=` the size is `Unknown size` |
| Extraction.SharedTrace | terabox_utils.py:344-398 | after the search the reports are none, or 50 and 70, and a success adds 80 |
| Extraction.SharedPrefixRises | terabox_utils.py:333-391 | 5, 10, 30 and then 50, 70, 80 cut off anywhere rise |
| Extraction.AfterSearchTrace | terabox_utils.py:330-398 | the share path starts 5, 10, rises, ends at 80 on success, and fails only with its five messages |
| Extraction.ResolveSharedTrace | terabox_utils.py:327-398 | the same for a normalised link |
| Extraction.ExtractTraceRises | terabox_utils.py:274-402 | the reports start at 5 and rise; a success ends at 60 or 80 |
| Extraction.ExtractErrors | terabox_utils.py:274-402 | the only error messages are the five fixed ones and `Error processing Terabox link: Invalid IPv6 URL` (sizes, link values and `urlparse` as modelled, see Left out) |
| Extraction.SignFailureReported | terabox_utils.py:344-346 | after a resolved search, the sign error is reported exactly when the sign helper failed, whatever the listing held |
| Extraction.SharedPrefersPrimary | terabox_utils.py:349-398 | a non-empty `url_1` is the link returned; the name is the first file's; a missing or zero size gives `Unknown size`, any other is formatted |
| Extraction.SharedLinkSource | terabox_utils.py:352-398 | a success holds either the first endpoint's link verbatim or an address that unwraps to the second endpoint's link |
| Extraction.NoLinkOnlyWhenPrimaryEmpty | terabox_utils.py:377-380 | "No download link generated" happens only when the first endpoint sent an empty link and the second none (link values as modelled, see Left out) |
| Extraction.ExtractTeraboxDownloadLink | terabox_utils.py:274-402 | the method's result and reports are those of the extraction function |
| Extraction.DescribeDirectLink | terabox_utils.py:297-325 | the method's result and reports are those of the direct path |
| Extraction.ResolveSharedLink | terabox_utils.py:327-398 | a fresh `TeraboxFile` searching the link gives the share path's result and reports |
| Extraction.LinkFirstFile | terabox_utils.py:344-398 | a `TeraboxLink` for the first file gives the result and reports the share path names |
| BotText.TruncDiv100 | telegram_utils.py:313 | `int(x / 100)`: the quotient truncated toward zero |
| BotText.CreateProgressBar | telegram_utils.py:302-328 | every cell is the stage colour or empty |
| BotText.ProgressBarCells | telegram_utils.py:312-328 | for 0 to 100 the bar has `length` cells; cell i is filled exactly when 100·(i+1) ≤ length·progress; filled cells are blue below 30, purple below 70, green after |
| BotText.ProgressBarMonotone | telegram_utils.py:312-328 | a cell filled at some progress stays filled at any higher progress |
| BotText.ProgressBarOutOfRange | telegram_utils.py:312-328 | above 100 the bar is all green, below 0 all empty |
| BotText.StagesInOrder | telegram_utils.py:159-161 | a stage starts only after the one before it is complete; below 100 exactly one stage is in progress; all are complete exactly from 100 |
| BotText.StagesAdvance | telegram_utils.py:159-161 | no stage moves back as the progress grows |
| BotText.SplitJoinLines | telegram_utils.py:156-163 | lines without line feeds, joined, split back into the same lines |
| BotText.ProcessingTextLayout | telegram_utils.py:156-163 | the message is nine lines: title, blank, the bar followed by ` <b><progress>%</b>`, blank, the three stage lines in order, blank, the footer |
| BotCommands.HandleCommand | telegram_utils.py:427-479 | the unknown-command answer is given exactly to commands other than `/start`, `/help` and `/about` |
| BotCommands.CommandRepliesDistinct | telegram_utils.py:437-477 | the three known commands get three different answers |
| BotLinks.StripFrom | telegram_utils.py:521-523 | each remaining mark removes at most one character from the end |
| BotLinks.StripTrailing | telegram_utils.py:519-523 | the cleaned link is a prefix of the word at most five characters shorter |
| BotLinks.StripTrailingOrder | telegram_utils.py:521-523 | the marks go in one pass in a fixed order: `x).` becomes `x`, `x?)` becomes `x?` |
| BotLinks.StripTrailingMarks | telegram_utils.py:519-523 | the loop computes the cleaned link |
| BotLinks.FirstMention | telegram_utils.py:516-518 | the first word naming a domain, with none earlier |
| BotLinks.ExtractUrlFromText | telegram_utils.py:481-526 | the method returns the link that `extract_url_from_text` picks |
| BotLinks.UrlFromTextDirect | telegram_utils.py:505-513 | when a direct link matches anywhere, the leftmost match wins, taken up to whitespace or the end |
| BotLinks.UrlFromTextNone | telegram_utils.py:481-526 | no link exactly when no direct link matches and no domain is named |
| BotLinks.UrlFromTextWord | telegram_utils.py:515-524 | otherwise the link is the first word naming a domain, cleaned |
| BotLinks.MentionedInWords | telegram_utils.py:516-518 | some word names a domain exactly when the text does |
| BotLinks.LinkDomainsSolid | telegram_utils.py:492-503 | the extractor's domains have no whitespace |
| BotLinks.GateDomainsListed | telegram_utils.py:346-355 | every gate domain is also an extractor domain |
| BotLinks.GatedTextHasUrl | telegram_utils.py:356-362 | a message passing the gate always yields a non-empty link, so "Could not find a valid Terabox link" is never sent |
| BotRouting.FallbackText | telegram_utils.py:403-416 | the fallback reply contains the name, the size and the link, and is longer than the name twice, the size and the link together |
| BotRouting.ReplyTextEmpty | telegram_utils.py:384-425 | only the reply after a sent video is empty |
| BotRouting.RespondCommands | telegram_utils.py:342-343 | commands are answered case-insensitively and nothing else happens |
| BotRouting.RespondHint | telegram_utils.py:422-425 | non-command text naming no gate domain gets the hint and nothing else happens |
| BotRouting.RespondExtracts | telegram_utils.py:356-382 | gated text has its link extracted and delivered; "no link" is never the answer |
| BotRouting.DeliverOutcome | telegram_utils.py:384-419 | a failure replies `Error: ` and the message and sends no video; a success sends the video and replies empty exactly when Telegram accepted it, and otherwise replies with the fallback for that same name, size and link |
| BotRouting.RespondErrors | telegram_utils.py:418-419 | every error reply carries one of the extractor's messages (sizes, link values and `urlparse` as modelled, see Left out) |
| BotRouting.StatusRises | telegram_utils.py:365-382 | the status message shows 0 and then rising percentages; it is edited exactly when a non-zero message id came back |
| BotRouting.DeliverStatus | telegram_utils.py:83-100 | with a message id, a success adds the edit at 70; when the send request answered (accepted or refused) it also adds 100 and deletes the status message, when the request raised the message stays at 70; a failure leaves it as it was |
| BotRouting.RespondProgress | telegram_utils.py:356-398 | with a message id, the chat sees 0 and then the rising reports, a success's last report at 60 or 80, then 70, and 100 with the deletion unless the send request raised |

## Left out

- HTTP: the share page, the listing, the sign helper and the two link endpoints are inputs (`Upstream.Services`). Headers, cookies, sessions, timeouts and logging are not modelled.
- `getChildFile`: each directory's child listing is part of the listing it sits in, so the tree is finite by construction. A child listing whose request raises makes the outer `packData` return `[]`, as the outer `try` does.
- JSON is modelled as the fields the code reads, each one missing or present. Sizes are integers. Truthiness is the one these fields can have.
- `urlparse`: the model follows `urlsplit` as CPython 3.12 has it (also in the security releases of 3.8-3.11 that carry the same fixes). Leading C0 controls and spaces are stripped, and a scheme must start with an ASCII letter. Older releases keep those characters and accept a scheme that starts with a digit, `+`, `-` or `.`. The other steps are: removal of tab, CR and LF, the scheme split, the network location, the `;` parameters and the "Invalid IPv6 URL" check.
- UrlParse.Parse, Extraction.ExtractErrors, BotRouting.RespondErrors: the checks that CPython 3.12's `urlsplit` makes on a bracketed host and on a network location that changes under NFKC normalisation are not modelled. In the source they raise `ValueError`s with other messages, for example "'terabox.com' does not appear to be an IPv4 or IPv6 address" for `https://[terabox.com]/s/1abc`, "IPvFuture address is invalid" or "An IPv4 address cannot be in brackets". They also raise "Invalid IPv6 URL" when text stands before the `[` or between the `]` and the port, as in `https://x[::1]/s/1`, which the model parses. Such messages reach the reply through terabox_utils.py:400-402, so the closed error sets of these members hold only for links without brackets and with an NFKC-stable network location.
- `\d` and `[a-z0-9]` cover ASCII only. Python's `\d` also matches other Unicode digits.
- `lower()` covers ASCII letters and the Kelvin sign, the only other character that lowers to a single ASCII letter. The two places where case matters compare with ASCII text.
- TeraboxUrls.FormatFileSize: the `.2f` of a float division is modelled as exact rounding, half to even, of the exact quotient. This equals Python's output while the size is exact as a double (below 2^53 bytes).
- BotText.TruncDiv100: `int(length * progress / 100)` is modelled as an exact truncated quotient. This equals Python's float result while the product is exact as a double.
- Extraction.DirectLinkKept, Extraction.ExtractErrors, BotRouting.RespondErrors: sizes are formatted exactly at any length. In the source a `size=` value of more than 4300 digits makes `int()` raise (terabox_utils.py:313), and one of about 318 digits or more overflows the float division in `format_file_size` (terabox_utils.py:462-468). Either exception turns into a failure whose message carries the exception's text, so these members hold only for sizes below those bounds.
- Extraction.NoLinkOnlyWhenPrimaryEmpty: the `downloadLink` of the first endpoint is modelled as a string or missing. A JSON `null`, `false` or `0` there is stored as is (terabox_utils.py:249); wrapping it then raises, and the source answers "No download link generated" (terabox_utils.py:376-378). ExtractErrors and RespondErrors hold for such values too, because that message is one of the fixed ones.
- FileInfo.TeraboxFile.GetSign: requires a short URL. `getSign` is only called after `search` has set one (terabox_utils.py:104-105).
- FileInfo.TeraboxFile.GetMainFile: requires a short URL. `getMainFile` is only called after `search` has set one (terabox_utils.py:104-105).
- The Telegram transport is out: `send_message`, `send_processing_message`, `update_processing_message`, `edit_message_text` and `delete_message`. Whether the processing message was posted and its `message_id` are inputs, and so is the outcome of the `sendVideo` request: accepted, refused, or raised (in `requests.post` or in reading the answer as JSON). Edits of the status message are assumed to go through. The error edit that `send_video` makes on a refused send is not modelled.
- `send_video`'s own error messages and captions of failed uploads are not modelled, nor its edit of the already deleted status message.
- The reply text is modelled as a `Reply` value with its exact text (`BotRouting.ReplyText`). The Flask app, the webhook and `set_telegram_webhook` are not part of this model.
- The progress callback is modelled as the sequence of its calls. The `random.choice` of a relay worker is an index into the worker list.
