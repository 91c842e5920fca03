# Danmaku2ASS conversion gateway — the request core

The gateway is a single Tornado handler (`bilidown-danmaku2ass.py`). A request
names a comment file and rendering options. The handler:

1. rate-limits the caller;
2. asks a cookie verifier whether the caller may proceed;
3. validates the query arguments;
4. reads a local file or downloads the comment file from an allowed origin;
5. hands the conversion to a worker pool;
6. streams back the subtitle file behind a UTF-8 byte-order mark.

Every failure ends the request with exactly one error response.

This project models that sequential core:

- `RateLimit` (rate_limit.dfy): the shared visit list as the class
  `RateLimiter`, whose `Admit` method is the handler's scan loop. The scan
  deletes entries while it iterates over them. It therefore skips the entry
  that slides into a deleted slot, and stops at the first live visit of
  another address. The method is proved against `Admission`. That function
  is built on `Sweep`, which follows the list iterator's position after each
  deletion. `SweepIsPrune` relates `Sweep` to `Prune`, an independent
  description of the scan over the unvisited part of the list. The
  properties of the scan are then proved about `Prune`.
- `Arguments` (arguments.dfy): query-argument validation with all-or-nothing
  semantics and the defaults.
- `Routing` (routing.dfy): the `file:///` shortcut and the domain restriction
  on downloads.
- `Responses` (responses.dfy): the error page with its status fallback, the
  400 help page and the delivered file.
- `Handler` (handler.dfy): the per-request terminal state machine. Its inputs
  are the outcomes of the collaborators: cookie verifier, downloader, worker
  pool and converter. It keeps a record of which collaborators were called.
  `Get` runs it on the shared limiter.

Time is an integer parameter. The interpreter's `int()` and `float()` are
partial functions that the caller supplies (`Conversions`). Tornado's refusal
of unknown status codes is a caller-supplied table (`StatusTable`). Floats are
modelled as reals.

Some of the code's behaviour is easy to misread. The model keeps it as
written:

- A live visit of the caller does not end the scan: there is no `break` on
  that branch. The scan continues and can still delete expired visits.
- A URL outside the allowed origins raises inside the download coroutine and
  is caught by the caller. It becomes a 500 error page, not a 400.
- Cookie verification is always performed. There is no variant without it.
- A verifier failure with no HTTP response, such as a timeout, carries
  Tornado's pseudo-code 599. This code has no reason phrase, so setting it
  raises, and the error page falls back to status 500. The model gets this
  from `StatusTable`.

## Model

| member | source | states |
|---|---|---|
| `RateLimit.RateLimiter.constructor` | bilidown-danmaku2ass.py:163-166 | the shared visit list starts empty |
| `RateLimit.RateLimiter.Admit` | bilidown-danmaku2ass.py:162-181 | the in-place scan loop; the iterator's position advances after a `del`. It leaves exactly the list and verdict that `Admission` gives for the old list |
| `RateLimit.Sweep` | bilidown-danmaku2ass.py:170-176 | the scan as the loop performs it, iterator position and all: it never lengthens the list, and it denies only when the list holds a live visit of the caller |
| `RateLimit.Prune` | bilidown-danmaku2ass.py:170-176 | the reference description of the scan over the part of the list not yet reached: it never lengthens the list, and it denies only when that part holds a live visit of the caller |
| `RateLimit.Admission` | bilidown-danmaku2ass.py:162-181 | one call's verdict and new list. A denial always rests on a live visit of the caller in the old list. An admission ends the list with `(now, ip)`. The list grows by one visit at most |
| `RateLimit.DenialIsWarranted` | bilidown-danmaku2ass.py:162-181 | the scan errs only by admitting: a denied call had a live visit at or after `now - 20`, so the intended rule denies it too |
| `RateLimit.WalkFromStartIsPrune` | bilidown-danmaku2ass.py:170-176 | the loop's scan from the front of the list is `Prune` of the whole list |
| `RateLimit.SweepIsPrune` | bilidown-danmaku2ass.py:170-176 | from any iterator position, the loop's scan leaves the visits already passed alone. On the remainder it equals the independent suffix description `Prune`: drop an expired head and keep its successor unexamined, keep a live caller visit and deny, stop at a live foreign visit |
| `RateLimit.PruneDropsOnlyExpired` | bilidown-danmaku2ass.py:170-172 | the scan deletes only visits with `time < now - 20`. The survivors keep their relative order |
| `RateLimit.LiveVisitsSurvive` | bilidown-danmaku2ass.py:171-172 | a visit that is not expired always survives pruning. This includes a visit exactly at the threshold |
| `RateLimit.AdmissionShape` | bilidown-danmaku2ass.py:177-180 | when the call is denied, nothing is appended and the new list is a pruned subsequence of the old one. When it is admitted, the list is a pruned subsequence followed by exactly `(now, ip)` |
| `RateLimit.LiveVisitsKept` | bilidown-danmaku2ass.py:168-172 | every visit at or after `now - 20` is still in the list after the call |
| `RateLimit.StopIndex` | bilidown-danmaku2ass.py:175-176 | the position where the scan ends is within the list. Unless it is the end of the list, it holds a live visit of another address |
| `RateLimit.WalkStopsAtForeignLiveVisit` | bilidown-danmaku2ass.py:170-176 | the scan's outcome depends only on the visits before its stop position. The stop visit and everything after it are kept untouched and are not examined |
| `RateLimit.RepeatWithinWindowDenied` | bilidown-danmaku2ass.py:162-181 | starting empty, one address is admitted at `t`. It is denied at `t'` with `t' - 20 <= t`, with the list unchanged. It is admitted again at `t''` with `t'' - 20 > t` |
| `RateLimit.ExpiredSuccessorSurvives` | bilidown-danmaku2ass.py:170-172 | for every list whose head is expired: the visit right behind it is kept as the new head, expired or not. Replacing it by any other visit changes nothing else, verdict included, so it is never examined |
| `RateLimit.WalkContinuesPastCaller` | bilidown-danmaku2ass.py:173-174 | for every list whose head is a live visit of the caller: the call is denied, the head is kept, and the rest of the list is scanned exactly as a list of its own would be, so expired visits behind the head are still deleted |
| `RateLimit.ShieldedRepeatAdmitted` | bilidown-danmaku2ass.py:175-176 | a witness of the as-written scan: from the list `[(0, "b")]`, `"a"` is admitted at 1 and admitted again at 2, because the live visit of `"b"` ends the scan before the caller's visit |
| `RateLimit.SkippedRepeatAdmitted` | bilidown-danmaku2ass.py:170-172 | a witness of the as-written scan: from the list `[(0, "x"), (95, "me")]`, `"me"` is admitted at 100, because its visit slides into the slot of the deleted one and is passed over |
| `RateLimit.Live` | bilidown-danmaku2ass.py:170-172 | the intended pruning keeps exactly the live visits, in order |
| `RateLimit.IntendedAdmission` | bilidown-danmaku2ass.py:162-181 | intended rule: admit exactly when the list holds no live visit of the caller |
| `RateLimit.IntendedDeniesRepeat` | bilidown-danmaku2ass.py:162-181 | under the intended rule, an address admitted at `t` is denied at every `t2` with `t2 - 20 <= t`, whatever the list held |
| `Arguments.Parse` | bilidown-danmaku2ass.py:36-95 | a parameter record exists exactly when the query is acceptable: `url` present, `w > 0`, `0 < h <= 65535`, and each present `p >= 0`, `fs > 0`, `0 <= a <= 1`, `l` converts. Each field is then the converted argument or its default. `r` is true exactly when present |
| `Arguments.DefaultsWhenAbsent` | bilidown-danmaku2ass.py:44-90 | with only `url`, `w` and `h`, the defaults are `p = 0`, `fn = SimHei`, `fs = 25`, `a = 1.0`, `l = 5.0`, `r` off and `o = comments.ass` |
| `Arguments.ReduceFlagIgnoresValue` | bilidown-danmaku2ass.py:75-80 | the value of `r` never changes the outcome. Its presence sets the flag |
| `Arguments.OneBadOptionRejects` | bilidown-danmaku2ass.py:44-69 | one out-of-range `p`, `fs` or `a` rejects the whole request |
| `Routing.Classify` | bilidown-danmaku2ass.py:97-99 | a `file:///` URL gives the local path `url[7:]`, which keeps its leading `/`. Any other URL is downloaded exactly when it starts with one of the three allowed origins |
| `Routing.LocalPathRoundTrip` | bilidown-danmaku2ass.py:97-98 | every absolute path comes back unchanged from its `file://` URL |
| `Routing.RefusedLookalikes` | bilidown-danmaku2ass.py:138-139 | every `https://` URL is refused, whatever its host. So is every `file://` URL that does not start with `file:///` |
| `Responses.ErrorPage` | bilidown-danmaku2ass.py:127-133 | the requested status, or 500 when the framework refuses that code. The HTML content type is added to the headers already set. The body is the `error.html` page with its cause |
| `Responses.BadRequest` | bilidown-danmaku2ass.py:91-95 | status 400, HTML content type, the `specification.html` page |
| `Responses.Disposition` | bilidown-danmaku2ass.py:121 | the `Content-Disposition` value is an attachment, and the file name can be read back from it unchanged |
| `Responses.Delivered` | bilidown-danmaku2ass.py:115-125 | the handler's reply: status 200, and exactly the headers the handler sets itself: `Content-Type: application/octet-stream`, `Content-Disposition` (naming the file), `Cache-Control: public, max-age=60` and `Expires`. Stripping the byte-order mark from the body gives back the converter's output |
| `Handler.Step` | bilidown-danmaku2ass.py:30-113 | each stage moves strictly forward. It adds at most one collaborator call to the record and never changes earlier entries |
| `Handler.Run` | bilidown-danmaku2ass.py:30-113 | every request ends with a response, and the record of calls only grows |
| `Handler.Handle` | bilidown-danmaku2ass.py:30-125 | the one response to a request and the calls made. The rate check is always the first call. The cookie verifier is asked next exactly when the rate limiter admitted the call |
| `Handler.ResponseStatuses` | bilidown-danmaku2ass.py:30-133 | every response carries 200, 400, 429, 500 or the verifier's own status. 429 answers only a denied call (or a verifier that sent 429). 400 answers only unacceptable arguments (or a verifier that sent 400) |
| `Handler.RateDenialEndsRequest` | bilidown-danmaku2ass.py:31-32 | a denied call gets the 429 error page. The only call made is the rate check, so the cookie verifier is never reached |
| `Handler.CookieRefusalEndsRequest` | bilidown-danmaku2ass.py:206-210 | a verifier HTTP error gives its code, or 500 when the framework refuses the code. `Location` is present exactly when the verifier sent one. The body is the error page, and nothing is downloaded or converted |
| `Handler.InvalidArgumentsEndRequest` | bilidown-danmaku2ass.py:91-95 | unacceptable arguments give the 400 help page with no download and no conversion |
| `Handler.ReachesValidation` | bilidown-danmaku2ass.py:30-90 | with both checks passed and acceptable arguments, the request continues from its validated parameters after exactly the rate and cookie calls |
| `Handler.FromValidation` | bilidown-danmaku2ass.py:96-125 | after validation: a forbidden origin gives 500 with no download. A failed download gives 500 with no conversion. A refused job, a failed conversion or the delivered file follows, as the outcomes dictate |
| `Handler.LocalInputCalls` | bilidown-danmaku2ass.py:97-111 | from validated parameters naming a local file, the only further call is the conversion of that path, made unless the worker pool refused the job |
| `Handler.LocalFileSkipsDownload` | bilidown-danmaku2ass.py:97-98 | a `file:///` input is never downloaded. The converter receives the path after the scheme |
| `Handler.ForbiddenOriginNotDownloaded` | bilidown-danmaku2ass.py:138-139 | a URL outside the allowed origins gets the 500 error page with no download and no conversion |
| `Handler.FailedDownloadEndsRequest` | bilidown-danmaku2ass.py:100-103 | a failed download gets the 500 error page after exactly one download call, and nothing is converted |
| `Handler.FailedConversionEndsRequest` | bilidown-danmaku2ass.py:106-118 | a refused job or a conversion that raises gets the 500 error page |
| `Handler.DeliveredExactlyWhenAllSucceed` | bilidown-danmaku2ass.py:30-125 | the file is delivered exactly when every stage succeeded. It then has status 200, the converter's output behind the byte-order mark, and the `o` name or `comments.ass` |
| `Handler.Get` | bilidown-danmaku2ass.py:30-34 | serving a request updates the shared limiter as `Admission` decides and answers as that verdict leads |

## Findings

| source | as written | input that shows it | evidently intended | confidence | as-written member | corrected member |
|---|---|---|---|---|---|---|
| bilidown-danmaku2ass.py:175-176 | the scan `break`s at the first live visit of another address, so later visits of the caller are never compared | list `[(0, "b")]`: `"a"` is admitted at 1, then admitted again at 2 | a repeat from one address within 20 s is denied, whatever other addresses did | medium, not executed | `RateLimit.ShieldedRepeatAdmitted` | `RateLimit.IntendedDeniesRepeat` |
| bilidown-danmaku2ass.py:170-172 | `del` during `enumerate` skips the entry after a deleted one, which is then not compared | list `[(0, "x"), (95, "me")]`: `"me"` is admitted at 100 | every live visit of the caller is compared | medium, not executed | `RateLimit.SkippedRepeatAdmitted` | `RateLimit.IntendedDeniesRepeat` |

The corrected rule is `RateLimit.IntendedAdmission`. `Handler.Handle` takes
the limiter's verdict as an input, so the corrected rule and the as-written
rule fit it equally. `RateLimiter.Admit` keeps the as-written scan, because
its exact skip and stop behaviour is what the gateway does. Both defects err
in the same direction: `RateLimit.DenialIsWarranted` proves that every call the
as-written scan denies, the corrected rule denies too.

## Left out

- Coroutines, `@asynchronous`, the thread pool and the callback hop back to the
  I/O loop: these are concurrency. The model takes the pool's outcome as an
  input (`ConversionOutcome`).
- The network calls of the cookie verifier and the downloader are left out:
  request headers, user agent, redirects, compression and timeouts. Only their
  outcomes enter the model.
- A cookie-verifier exception other than an HTTP error escapes the handler,
  and Tornado's own 500 page answers it. This is not modelled.
- The subtitle conversion itself is an external library.
- Template rendering is left out. Pages are represented by template name and
  cause.
- The cookie-verify endpoint, command-line options, server start-up and the
  catch-all redirect route are left out.
- Clock reads are left out. Time is a parameter, and the `Expires` value is a
  caller-supplied formatted string.
- Python's `int()` and `float()` parsing is left out, together with NaN and
  infinity (a NaN `fs` would pass the `<= 0` check) and float rounding. Numbers
  are integers and reals.
- Tornado's argument handling is left out: whitespace stripping and
  last-value-wins. A query is one value per name.
- Lenient UTF-8 decoding of the download and UTF-8 encoding of the output are
  left out. The converter's output enters as bytes.
- The headers Tornado adds by itself are left out. These are the defaults
  (`Server`, `Date`) and, on finishing a reply, `Etag` and `Content-Length`.
  With the `gzip` setting, the output transform also adds `Vary` and, for a
  compressed body, `Content-Encoding`. Tornado's table of known status codes is
  left out too. The table is a parameter.
- The `x_forwarded_for` assignment is left out. It is never used afterwards.
- Responses.Delivered: does not model Tornado's check of header values. A file
  name holding a control character, such as a newline kept inside `o`, makes
  setting `Content-Disposition` raise. That happens in the callback the worker
  pool schedules on the I/O loop, outside the handler's error handling, so no
  response is written. The model delivers the file with status 200 instead.
- Responses.Delivered: does not model the 304 answer to a conditional GET.
  `finish` compares the request's `If-None-Match` with the `Etag` of the body.
  On a match it answers 304 with no body and no `Content-Type`, so the repeat of
  a conversion that sends the earlier `Etag` gets no file. The model always
  answers 200 with the file.
- Handler.DeliveredExactlyWhenAllSucceed: inherits both gaps above. A
  successful conversion counts as delivered even when the file name cannot be
  sent as a header, and even when a matching `If-None-Match` turns the reply
  into a 304 with no body.
