# Soccer formation analyzer: verified model of the front end's core

The front end lets a user drop a photograph of a soccer pitch, submits it to a
remote analysis service, and shows the two annotated result images and the
detected formation labels. The images are loaded through a same-origin image
relay. This project models the four pieces of logic in it that have real
sequencing or decisions, and proves properties of each.

- **Page state machine** (`page.dfy`, module `Page`). The home page owns two
  state cells, `analysisData` and `isAnalyzing`. Four handlers overwrite them:
  start, complete(d), error and reset. The class `Home` has those two fields
  and one method per handler. A ghost `history` records the handler calls,
  and `Valid()` ties the fields to `Run(Initial, history)`. `Render` is the
  page's choice between the upload zone, the spinner and the results.
- **Upload zone** (`upload_zone.dfy`, module `Upload`). The class
  `UploadZone` holds the `preview`, `file` and `error` cells. It has the drop
  handler, the file reader's load event, Clear, and `HandleAnalyze`.
  `HandleAnalyze` calls the page's handler methods directly, in the order the
  component calls its callbacks. The pure parts are separate functions: the
  error text, the two result URLs and the formations fallback.
- **Image relay** (`proxy_image.dfy`, module `ProxyImage`). The route is a
  total function `Get`. It maps the request URL and an abstract upstream
  outcome to the upstream request it makes, if any, and a
  `{status, headers, body}` response.
- **Relay URLs in the results view** (`analysis_results.dfy`, module
  `AnalysisResults`). This covers `getProxiedImageUrl`, the `<img>` sources,
  the load-error fallbacks, the download targets and the formation cards.

Supporting modules:

- `uri.dfy` holds encodeURIComponent as ECMA-262 defines it (sections
  19.2.6.4 and 19.2.6.5). It also holds the WHATWG URL Standard's
  application/x-www-form-urlencoded parser (section 5.1) and its
  percent-decoding (section 1.3).
- `utf8.dfy` holds the UTF-8 encoder (RFC 3629) and the WHATWG Encoding
  Standard's UTF-8 decoder (section 8.1.1).
- `decimal.dfy` holds the decimal text that a template literal produces for a
  non-negative integer.

The central property is the relay round trip. For every string `u` and every
origin, `searchParams.get("url")` on `origin + getProxiedImageUrl(u)` returns
exactly `u`, where the origin is anything without `?` or `#`. This holds for any string `u`, not only ASCII (`RelayRoundTrip`,
built on `Uri.SearchParamRoundTrip` and `Utf8.DecodeEncode`).

Three facts about the code shape the model:

- There is no generation counter. A completion is stored in every state,
  even after a reset (`Page.LateCompletionIsStored`).
- Every upstream failure gives 500 with the fixed body
  `{error: "Failed to fetch image"}`. The upstream status only appears in a
  log line.
- The page state is two independent cells, not a tagged state.

## Model

| member | source | states |
|---|---|---|
| `Page.Home.constructor` | v0-soccer-pitch-analysis-main/app/page.tsx:18-19 | Initially there is no analysis data and analysing is false; the history is empty. |
| `Page.Home.HandleAnalysisComplete` | v0-soccer-pitch-analysis-main/app/page.tsx:21-24 | Stores exactly `d` and clears analysing, from any valid state (no staleness check); the invariant is kept. |
| `Page.Home.HandleAnalysisStart` | v0-soccer-pitch-analysis-main/app/page.tsx:26-29 | Sets analysing and clears any prior result; the invariant is kept. |
| `Page.Home.HandleAnalysisError` | v0-soccer-pitch-analysis-main/app/page.tsx:31-33 | Clears analysing and leaves the stored data as it was. |
| `Page.Home.HandleReset` | v0-soccer-pitch-analysis-main/app/page.tsx:35-38 | Clears both cells. |
| `Page.StepConsistent` | v0-soccer-pitch-analysis-main/app/page.tsx:21-38 | Every handler leaves a state where data and analysing are not both set, whatever the state before. |
| `Page.RunConsistent` | v0-soccer-pitch-analysis-main/app/page.tsx:18-38 | After any sequence of the four events from a consistent state, data is never present while analysing is true. |
| `Page.RunAppend` | v0-soccer-pitch-analysis-main/app/page.tsx:17-38 | Handling one more event is one more step on the state reached so far; this ties each handler method to the history. |
| `Page.ResetIdempotent` | v0-soccer-pitch-analysis-main/app/page.tsx:35-38 | After any history, reset gives the initial state, and a second reset gives the same state as one. |
| `Page.LateCompletionIsStored` | v0-soccer-pitch-analysis-main/app/page.tsx:21-24 | A completion that arrives after a reset is still stored: the code has no staleness guard. |
| `Page.Render` | v0-soccer-pitch-analysis-main/app/page.tsx:59-77 | The upload zone is shown iff there is no data. The spinner is shown iff there is no data and analysing is set. The results are shown iff there is data, and they show that data. The upload zone and the results are never shown together. |
| `Page.ReachableView` | v0-soccer-pitch-analysis-main/app/page.tsx:59-77 | In every reachable state the page shows exactly one of three things: the upload zone, the upload zone with the spinner, or the results alone. |
| `Upload.UploadZone.constructor` | v0-soccer-pitch-analysis-main/components/upload-zone.tsx:20-22 | `preview`, `file` and `error` all start empty. |
| `Upload.UploadZone.OnDrop` | v0-soccer-pitch-analysis-main/components/upload-zone.tsx:24-35 | Only `acceptedFiles[0]` is used. An empty list changes nothing. Otherwise `file` becomes that file, `error` is cleared, and `preview` is untouched. |
| `Upload.UploadZone.OnPreviewLoaded` | v0-soccer-pitch-analysis-main/components/upload-zone.tsx:30-32 | The reader's load event sets `preview` to its result and nothing else. It is accepted whichever file is current. |
| `Upload.UploadZone.Clear` | v0-soccer-pitch-analysis-main/components/upload-zone.tsx:142-146 | All three cells become empty. The result does not depend on the state before, so Clear is idempotent. |
| `Upload.UploadZone.HandleAnalyze` | v0-soccer-pitch-analysis-main/components/upload-zone.tsx:45-86 | With no file, nothing changes and no page handler runs. With a file, the error is cleared and start runs. Then complete runs with the shaped result on an ok answer, or error runs with the formatted message otherwise. `preview` and `file` are kept. |
| `Upload.ErrorAfter` | v0-soccer-pitch-analysis-main/components/upload-zone.tsx:65-84 | The error cell is empty exactly on success. A non-ok answer gives `"Upload failed with status " + s + ": " + b`. A thrown `Error` gives its own message, and a thrown non-Error value gives `"Analysis failed"`. |
| `Upload.UploadFailedMessage` | v0-soccer-pitch-analysis-main/components/upload-zone.tsx:67 | The message starts with `Upload failed with status ` and ends with the body text. `Upload.UploadFailedMessageInjective` proves that status and body are recoverable from it. |
| `Upload.UploadFailedMessageInjective` | v0-soccer-pitch-analysis-main/components/upload-zone.tsx:66-67 | Status and body can be read back from the message: distinct answers never give the same text. |
| `Upload.ServerErrorMessage` | v0-soccer-pitch-analysis-main/components/upload-zone.tsx:67 | Status 500 with body "server error" reads "Upload failed with status 500: server error". |
| `Upload.TeamAUrlTimestamp` | v0-soccer-pitch-analysis-main/components/upload-zone.tsx:74 | The `t` parameter of the Team A URL reads back as the timestamp's digits, and those digits denote the timestamp. |
| `Upload.TeamBUrlTimestamp` | v0-soccer-pitch-analysis-main/components/upload-zone.tsx:75 | The `t` parameter of the Team B URL reads back as the timestamp's digits, and those digits denote the timestamp. |
| `Upload.TeamUrlsDistinct` | v0-soccer-pitch-analysis-main/components/upload-zone.tsx:74-75 | The two result URLs differ, whatever the timestamps. |
| `Upload.TeamAUrl` | v0-soccer-pitch-analysis-main/components/upload-zone.tsx:74 | The Team A URL lies on the analysis service's host, and its last characters are the timestamp's digits. `Upload.TeamAUrlPath` fixes the image it names, and `Upload.TeamAUrlTimestamp` fixes its `t` parameter. |
| `Upload.TeamBUrl` | v0-soccer-pitch-analysis-main/components/upload-zone.tsx:75 | The same for the Team B URL (`Upload.TeamBUrlPath`, `Upload.TeamBUrlTimestamp`). |
| `Upload.TeamAUrlPath` | v0-soccer-pitch-analysis-main/components/upload-zone.tsx:74 | Everything before the Team A URL's query is exactly the service's `/image/teamA_boxes_lines.jpg`. |
| `Upload.TeamBUrlPath` | v0-soccer-pitch-analysis-main/components/upload-zone.tsx:75 | Everything before the Team B URL's query is exactly the service's `/image/teamB_boxes_lines.jpg`. |
| `Upload.FormationsOf` | v0-soccer-pitch-analysis-main/components/upload-zone.tsx:80 | `data.formations` when present, otherwise `{team1: teamA_formation, team2: teamB_formation}`. |
| `Upload.ResultData` | v0-soccer-pitch-analysis-main/components/upload-zone.tsx:77-81 | The completed record always has formations, so its `formations` field is always defined. |
| `ProxyImage.Get` | v0-soccer-pitch-analysis-main/app/api/proxy-image/route.ts:3-36 | A missing or empty `url` gives 400 `{error: "Missing url parameter"}` with no upstream fetch. Otherwise exactly `url` is fetched. 200 with the upstream bytes happens iff the answer is ok and its body is read. Every other case gives 500 `{error: "Failed to fetch image"}`. |
| `ProxyImage.Relay` | v0-soccer-pitch-analysis-main/app/api/proxy-image/route.ts:18-34 | After the fetch, the status is 200 iff the upstream answered ok and its body was read, and then the body is the upstream bytes. Every other case is exactly the 500 `{error: "Failed to fetch image"}` JSON response. |
| `ProxyImage.HeaderValue` | v0-soccer-pitch-analysis-main/app/api/proxy-image/route.ts:23 | A value found for a name is one given for it. No value is found iff no header has that name. `ProxyImage.SuccessHeaders` proves what it returns on the route's own responses. |
| `ProxyImage.UpstreamRequestSkipsWarning` | v0-soccer-pitch-analysis-main/app/api/proxy-image/route.ts:12-16 | Every upstream request carries `ngrok-skip-browser-warning: true`. |
| `ProxyImage.SuccessHeaders` | v0-soccer-pitch-analysis-main/app/api/proxy-image/route.ts:23-30 | On success, `Content-Type` is the upstream type, or `image/jpeg` when that is absent or empty. `Cache-Control` is `public, max-age=31536000, immutable` and `Access-Control-Allow-Origin` is `*`. |
| `AnalysisResults.ProxiedImageUrl` | v0-soccer-pitch-analysis-main/components/analysis-results.tsx:20-22 | The relay URL is strictly longer than the remote URL it wraps, so it is never empty. |
| `AnalysisResults.ImageSrc` | v0-soccer-pitch-analysis-main/components/analysis-results.tsx:98-129 | Each `<img>` source is the relay URL, never the remote URL itself. The `/placeholder.svg` alternative is never taken. |
| `AnalysisResults.FigureTargets` | v0-soccer-pitch-analysis-main/components/analysis-results.tsx:87-135 | Downloads go to the remote URL, not the relay, under `teamA_boxes_lines.jpg` and `teamB_boxes_lines.jpg`. The load-error sources are `/team-detection.jpg` and `/team-formation.jpg`. These differ from each other and from the relay source. |
| `AnalysisResults.RelayRoundTrip` | v0-soccer-pitch-analysis-main/components/analysis-results.tsx:21 | For every string `u`, the relay's `searchParams.get("url")` on an origin (no `?` or `#`) plus the relay URL of `u` returns exactly `u`. |
| `AnalysisResults.RelayServesRemoteImage` | v0-soccer-pitch-analysis-main/components/analysis-results.tsx:97-98 | Loading an image makes the relay fetch exactly the remote URL with the skip-warning header. It answers 200 iff the upstream delivers. Only an empty remote URL gives 400. |
| `AnalysisResults.UploadedResultsDisplay` | v0-soccer-pitch-analysis-main/components/analysis-results.tsx:58-129 | For a record built by the upload zone, the two relays fetch the two result URLs and the formations card is shown. |
| `AnalysisResults.FormationCards` | v0-soccer-pitch-analysis-main/components/analysis-results.tsx:58-76 | The card is shown iff the record has formations. A team's entry is present iff its label is a non-empty string, and it shows that label. |
| `Uri.EncodeURIComponent` | v0-soccer-pitch-analysis-main/components/analysis-results.tsx:21 | The output is at least as long as the input and holds only unescaped characters, `%` and upper-case hexadecimal digits. |
| `Uri.EscapeCharShape` | v0-soccer-pitch-analysis-main/components/analysis-results.tsx:21 | A character is copied unchanged iff it is in `A-Z a-z 0-9 - _ . ! ~ * ' ( )`. Any other character becomes one to four `%XY` triples. |
| `Uri.EncodeURIComponentWellEncoded` | v0-soccer-pitch-analysis-main/components/analysis-results.tsx:21 | The output is a sequence of unescaped characters and `%XY` triples. |
| `Uri.NoDelimiters` | v0-soccer-pitch-analysis-main/components/analysis-results.tsx:21 | The output holds no `&`, `=`, `#`, `+` or `?`, so it cannot split or end the query. |
| `Uri.DecodeEncoded` | v0-soccer-pitch-analysis-main/app/api/proxy-image/route.ts:6 | Percent-decoding the encoded text gives back the UTF-8 octets of the original string. |
| `Uri.SearchParam` | v0-soccer-pitch-analysis-main/app/api/proxy-image/route.ts:5-6 | A URL without a query has no parameters. A value returned for a name is the value of a pair with that name in the parsed query; `Uri.Lookup` makes it the first such pair. `Uri.SearchParamRoundTrip` proves the round trip. |
| `Uri.Lookup` | v0-soccer-pitch-analysis-main/app/api/proxy-image/route.ts:6 | A value is found iff some pair has the name. The value found belongs to the first pair with that name. |
| `Uri.SearchParamRoundTrip` | v0-soccer-pitch-analysis-main/app/api/proxy-image/route.ts:5-6 | If `base` has no `?` or `#` and `name` is all unreserved characters, then for the URL `base?name=` plus `encodeURIComponent(v)`, `get(name)` returns exactly `v`. |
| `Utf8.DecodeEncode` | v0-soccer-pitch-analysis-main/app/api/proxy-image/route.ts:6 | The UTF-8 decoder undoes the UTF-8 encoding of every string. |
| `Decimal.FromNat` | v0-soccer-pitch-analysis-main/components/upload-zone.tsx:67 | A number's template-literal text is a non-empty run of decimal digits with no leading zero. |
| `Decimal.ToNatFromNat` | v0-soccer-pitch-analysis-main/components/upload-zone.tsx:74-75 | Reading that text back gives the number. |

## Left out

- The network calls are left out. This covers the POST to `process_image`,
  the relay's upstream fetch, `response.text()`, `response.json()`,
  `response.arrayBuffer()` and the download's fetch. Each is an abstract
  outcome: `ProcessOutcome` for the analysis call and `Upstream` for the
  relay.
- The multipart form body of the analysis POST and its
  `ngrok-skip-browser-warning` header are not modelled, because no decision
  depends on them.
- A JSON body of `null` makes line 80 of upload-zone.tsx throw a TypeError.
  The model folds that case into `Thrown` with the engine's message, because
  the message text belongs to the JavaScript runtime.
- The model does not encode the file as a data URL with `FileReader`. The
  load event is `OnPreviewLoaded` and carries an opaque string.
- The 1500 ms `setTimeout` wait and the two `Date.now()` readings are timing
  concerns. The readings are the parameters `t1` and `t2`.
- react-dropzone's `accept` filter and `maxFiles` are library behaviour. The
  accepted files are a given sequence.
- The model leaves out the DOM and runtime work: object URLs, the anchor
  click, `console.error`, and the React and NextResponse internals (a response
  is a record).
- Overlapping `handleAnalyze` calls are not modelled, because each call is
  modelled as running to completion. A later completion overwriting a newer
  state is still shown (`Page.LateCompletionIsStored`).
- There is no generation-counter guard, because the code has none.
- React unmounts the upload zone while results are shown, and it comes back
  with fresh state after a reset. The model keeps one `UploadZone` object and
  does not model the remount.
- The Analyze and Clear buttons only render while a preview is present. The
  model lets the handlers be called in any state.
- `onAnalysisError` is optional in the component's props. The page always
  supplies it, so `HandleAnalyze` always calls `HandleAnalysisError`.
- The upload zone itself renders the preview image, the file name and the
  error box. All of this is markup and is left out.
- `Upload.UploadZone.HandleAnalyze`: the analysis answer arrives already
  classified as `NotOk` or `Ok`. The model does not tie that split to the
  status range 200–299, because `response.ok` belongs to the fetch outcome.
  The relay route does model that range (`ProxyImage.IsOk`).
- `Uri.SearchParam`: the URL parser's other steps are not modelled. These are
  trimming, tab and newline removal, and percent-encoding of the query. The
  relay URL is ASCII and holds no character those steps change, except `'`,
  which the parser encodes as `%27` and `get` decodes back.
- `ProxyImage.HeaderValue`: header names are compared exactly, not
  ASCII-case-insensitively as HTTP does, because the model only looks up the
  names the route itself writes.
- `Uri.EncodeURIComponent`: the URIError that JavaScript throws on a lone
  surrogate is not modelled, because a Dafny string cannot hold one.
- `Decimal.FromNat`: ECMA-262's Number::toString switches to exponent
  notation from 10^21 on, and `FromNat` does not. HTTP statuses and
  `Date.now()` readings stay far below that bound.
- `Utf8.Handle` guards the conversion of a decoded code point to a
  character. The decoder's boundaries already rule out every value the guard
  catches, but the model does not prove that.
