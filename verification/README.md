# permit-check-ai, modelled in Dafny

permit-check-ai is a small Next.js application. It answers one question for an
address: does installing a Level 2 EV charger there need an electrical permit?
Three pieces of sequential logic do the work, and this project models and
verifies each of them.

- **`/api/get-location`** (`location.dfy`, module `Location`).
  - It checks that the request carries an address, then asks a geocoding service about it.
  - It rejects a reply whose status is not `"OK"` or whose result list is empty.
  - It scans the address components of the first result. The last component tagged
    `locality` gives the city. The last one tagged `sublocality_level_1` or
    `administrative_area_level_3` gives the township. The last one tagged
    `administrative_area_level_2` gives the county.
  - The county name has its first `" County"` removed.
- **`/api/get-permit-info`** (`permit_route.dfy`, module `PermitRoute`).
  - It checks that `city` and `county` are truthy, then builds a fixed prompt from city, county and township.
  - It sends a streamed chat-completion request. An upstream failure becomes a JSON error.
  - Otherwise it relays the upstream event stream. For each upstream chunk it decodes with a
    streaming text decoder, re-encodes, and enqueues one chunk. It closes the output when the
    upstream is done.
- **The page** (`page.dfy`, module `Page`).
  - `handleLocationFetch` asks for the jurisdiction. A non-OK reply shows its error. Otherwise
    the reply object becomes the page state and `fetchPermitInfo` runs.
  - `fetchPermitInfo` reads the stream chunk by chunk. Each chunk is decoded on its own: split on
    `"data: "`, drop the pieces that are blank or `[DONE]` after trimming, parse the rest as JSON,
    take each one's `choices[0].delta.content` (or `""`), and join the results.
  - That text is appended to a running `result`, and the whole `result` becomes the displayed
    permit text after every chunk. Anything thrown becomes the error text.

Supporting modules:
- `Text` (`text.dfy`) models the JavaScript string operations the code relies on:
  - `indexOf`;
  - `replace` with a string pattern, which replaces only the first occurrence;
  - `split` with a string separator;
  - `join`;
  - `trim`, with ECMAScript's whitespace set.

  String-valued JSON fields are `Field = Option<string>` with JavaScript truthiness. Fields
  holding `null` or a non-string value are not represented; see "Left out".
- `Streams` (`streams.dfy`) holds:
  - the byte-chunk reader of a response body, a class whose `Read` pops the next chunk;
  - the streaming UTF-8 codec, kept as a parameter. It has a decode that returns the text of
    complete characters and the bytes it keeps, and an encode.
- `Wrappers` (`wrappers.dfy`) holds `Option` and `Result`.

The imperative parts are methods proved against functions:
- `Location.ScanComponents` is the component loop, proved against `Location.Extracted`.
- `PermitRoute.Relay` is the relay pump over a `StreamController` class, proved against
  `RelayOutputs`.
- `Page.PermitPage.ReadStream` is the read loop over the `PermitPage` class, proved against
  `Page.AfterFetch`.

The functions are then characterised by lemmas: last match wins, running totals, whole text shown, the stop on the first error, and byte preservation.

The county name is cleaned with `replace(" County", "")`. With a string pattern this removes
the first `" County"` wherever it stands, not only a trailing one. `Location.CountyNameSpec`
states this first-occurrence behaviour.

## Model

| member | source | states |
|---|---|---|
| Location.Post | src/app/api/get-location/route.ts:5-50 | A missing or empty address gives 400 "Address is required" and no geocoding lookup. A failing `req.json()` or a throwing geocoder gives 500 "Failed to retrieve location data". A status other than "OK" or no results gives 400 "Invalid address or API error". Otherwise the answer is the jurisdiction extracted from `results[0]` alone. |
| Location.ScanComponents | src/app/api/get-location/route.ts:29-41 | The imperative loop over the components ends with exactly the jurisdiction `Extracted` describes. |
| Location.LastFilling | src/app/api/get-location/route.ts:32-40 | Finds the last component that fills a slot: it fills the slot, no later one does, and `None` means no component does. |
| Location.PickIsLastMatch | src/app/api/get-location/route.ts:29-40 | A slot is "" when no component carries its tag, and otherwise the value of the last component that does. |
| Location.PickStep | src/app/api/get-location/route.ts:33-40 | One more component overwrites every slot it has a tag for and leaves the other slots alone. |
| Location.CountyNameSpec | src/app/api/get-location/route.ts:34-35 | A county name without " County" is unchanged. Otherwise exactly its first " County" is cut out. |
| Location.SantaClara | src/app/api/get-location/route.ts:35 | "Santa Clara County" becomes "Santa Clara". |
| Location.OneComponentSeveralSlots | src/app/api/get-location/route.ts:33-40 | The three tests are independent: one component carrying several tags sets city, township and county. |
| Text.IndexOfSpec | src/app/api/get-location/route.ts:35 | `indexOf` finds the first occurrence of a pattern: the pattern occurs at the index found and at no earlier one, and the answer is `None` exactly when the pattern does not occur. |
| Text.ReplaceFirstSpec | src/app/api/get-location/route.ts:35 | `replace` with a string pattern changes nothing when the pattern is absent. Otherwise it substitutes at the first occurrence only. |
| Text.SplitJoin | src/app/page.tsx:71-72 | Joining the pieces of a split with the separator gives back the chunk text, so splitting on "data: " loses nothing. |
| Text.TrimStartSpec | src/app/page.tsx:73 | Trimming the front drops a whitespace prefix and leaves a result that is empty or starts with a non-space. |
| Text.TrimEndSpec | src/app/page.tsx:73 | Trimming the back drops a whitespace suffix and leaves a result that is empty or ends with a non-space. |
| Text.TrimSpec | src/app/page.tsx:73 | `trim` removes whitespace at both ends and only there. |
| Text.TrimBlank | src/app/page.tsx:73 | A piece trims to "" exactly when it is all whitespace. |
| PermitRoute.Post | src/app/api/get-permit-info/route.ts:5-76 | Holds in both directions. The chat request is sent exactly when the body parsed and city and county are truthy, and it carries the fixed model, the system instruction and the user prompt, streamed. A 400 "Location details are required" happens exactly when the guard fails. The event stream is returned exactly when upstream is OK with a body. 500 "Failed to get permit info" happens exactly when upstream answered badly. 500 "Failed to retrieve permit information" happens exactly when parsing or the upstream call threw. |
| PermitRoute.TownshipOptional | src/app/api/get-permit-info/route.ts:8 | Township is not checked: with city and county present, the service is asked whatever township is. |
| PermitRoute.UserPrompt | src/app/api/get-permit-info/route.ts:33 | The prompt is as long as the fixed lead, the three interpolated fields, two ", " separators and the fixed question together. |
| PermitRoute.PromptFieldsInOrder | src/app/api/get-permit-info/route.ts:33 | The prompt is the fixed lead, then city, ", ", county, ", ", township, then the fixed question, each at its stated position. |
| PermitRoute.MissingTownshipSaysUndefined | src/app/api/get-permit-info/route.ts:8-33 | A request without a township passes the guard, and its prompt says "undefined" where the township goes. |
| PermitRoute.Relay | src/app/api/get-permit-info/route.ts:52-65 | The pump enqueues one re-encoded chunk per upstream chunk, in arrival order, and then exactly one ending: a close when the upstream is done, an error when a read fails. The upstream is consumed to its end. |
| PermitRoute.RelayPreservesBytes | src/app/api/get-permit-info/route.ts:54-62 | With a lossless codec, the relayed bytes followed by what the decoder still holds are exactly the upstream bytes. |
| Streams.ChunkReader.Read | src/app/page.tsx:66-67 | `reader.read()` yields the next pending chunk and removes it. With none left it reports done, or rejects with the stream's error. |
| Page.KeptPiecesSpec | src/app/page.tsx:73 | The filter keeps exactly the pieces that are neither blank nor "[DONE]" after trimming. |
| Page.KeptPiecesAppend | src/app/page.tsx:73 | The filter preserves order: filtering two runs of pieces in a row is filtering each. |
| Page.ParseAllSpec | src/app/page.tsx:74-75 | Parsing succeeds exactly when every kept piece parses, and then yields each one's content in order. Otherwise it throws the message of the first piece that fails. |
| Page.DecodeChunkSpec | src/app/page.tsx:71-76 | A chunk's text is the in-order join of the contents of its kept pieces, with a missing content contributing "". It throws the first parse error exactly when some kept piece does not parse. |
| Page.DroppedPiecesNeverParsed | src/app/page.tsx:73-74 | The decoded chunk depends on the parser only through the kept pieces, so blank and "[DONE]" pieces are never parsed. |
| Page.SplitFrame | src/app/page.tsx:72 | Splitting a framed event stream on "data: " gives back its pieces after one empty lead piece. |
| Page.TwoDeltasThenDone | src/app/page.tsx:71-76 | `data: A`, `data: B`, `data: [DONE]` in one chunk decodes to the two deltas concatenated. |
| Page.DecodeOneEvent | src/app/page.tsx:71-76 | A chunk with a single event decodes to that event's content or throws its parse error. |
| Page.PieceSplitAcrossChunks | src/app/page.tsx:69-76 | No line buffering: an event whose whole text parses can throw when a chunk holds only its first part. |
| Page.DecodedSpec | src/app/page.tsx:69-76 | Each chunk is decoded from its own text alone, with nothing carried over between chunks. |
| Page.ConsumeSpec | src/app/page.tsx:65-93 | `result` takes one value per chunk that decodes, each extending the empty start. The loop reads to the end unless a chunk throws, and then stops at the first one that throws, with its message. |
| Page.ConsumeIsRunningTotal | src/app/page.tsx:63-78 | After chunk k, `result` is the concatenation of the deltas of chunks 0..k. |
| Page.ConsumeOnlyGrows | src/app/page.tsx:78 | Every earlier value of `result` is a prefix of every later one. |
| Page.ConsumeStopsAt | src/app/page.tsx:74-93 | A chunk that throws ends the values of `result` exactly there, with its message as the failure. |
| Page.WithText | src/app/page.tsx:80-89 | The update sets only `permitInfo`, to the whole `result`. It keeps the current city, township, county and permitWebsite. With no state yet, it takes them from the arguments, with permitWebsite "". |
| Page.RenderedSpec | src/app/page.tsx:80-89 | One state is installed per value of `result`, each holding that value. |
| Page.ScreensShowWholeResult | src/app/page.tsx:78-89 | After every chunk the page shows the whole text so far, the deltas of chunks 0..k joined, and never just the latest delta. |
| Page.ThrowKeepsShownText | src/app/page.tsx:74-93 | A throwing chunk k leaves exactly the k states already shown, the last of them current, and the error set to its message. |
| Page.ErrorReplyShowsEmptyText | src/app/page.tsx:57-89 | The page does not check `response.ok`: a JSON error reply read as the stream parses with no content, so the page shows "" and no error. |
| Page.LocationOutcome | src/app/page.tsx:107-110 | A non-OK location reply throws `data.error` when truthy, else "Something went wrong". |
| Page.LocationRouteToPage | src/app/page.tsx:107-112 | Every error the location route returns reaches the page as its message. Every jurisdiction it finds reaches the page field for field. |
| Page.MissingCityOrCountyRefused | src/app/api/get-permit-info/route.ts:8-13 | A located address with an empty city or county is refused by the permit route with 400 and no upstream call. |
| Page.RunSpec | src/app/page.tsx:65-90 | Running the read loop appends one screen per value of `result`, leaves the last one current, and ends with the first throw, else the stream's error, else the previous error. |
| Page.RunIsAfterFetch | src/app/page.tsx:65-93 | The step-by-step loop and the summary `AfterFetch` agree on screens, state and error. |
| Page.PermitPage.ReadStream | src/app/page.tsx:61-93 | The imperative read loop ends with the page state, the rendered states and the error that `AfterFetch` gives for the decoded chunks. It leaves exactly the chunks `Unread` names in the body. |
| Page.PermitPage.FetchPermitInfo | src/app/page.tsx:45-94 | An unreachable route sets the error to the thrown message. A reply without a body sets "Failed to get response body." Neither reads the body. A stream is read as `ReadStream` states. |
| Page.PermitPage.HandleLocationFetch | src/app/page.tsx:96-119 | A failed location lookup clears the error, then sets it to the outcome's message, and leaves the state and the body alone. A successful one installs the reply object as the state and runs `fetchPermitInfo` with its city, county and township. |
| Page.ChunksReadSpec | src/app/page.tsx:65-76 | The loop reads one chunk per value of `result`, plus the chunk that throws, or else every chunk. |
| Page.UnreadSpec | src/app/page.tsx:65-93 | A stream read to its end leaves nothing in the body. A chunk that throws leaves exactly the chunks after it. Without a stream nothing is read. |

## Left out

- Network calls to the geocoding service, the chat-completion service and the two routes are
  not modelled. Their outcomes are parameters: `Geocoded`, `Upstream`, `LocationReply`,
  `PermitFetch`, and the reader's chunks and fault.
- Geocoding replies of the wrong shape are not modelled separately. For example, a reply with
  status "OK" but no `results` key makes `data.results.length` throw. Such a reply counts as
  `GeocodeThrew`, which gives the same 500 answer. A reply with another status and no `results`
  key never reaches `data.results`: the status test answers 400 first, as `Location.Post` states.
- Building the geocoding URL with `encodeURIComponent` and the API key is left out, because it
  is string templating around a library call. `Location.Post` returns the address the service
  was asked about instead.
- `JSON.parse`, `req.json()`, `response.json()` and `JSON.stringify` are foreign parsers:
  - parsing a piece is the parameter `parse`, which returns a content path or a `SyntaxError`;
  - a request body that fails to parse is `None`.

  JSON values that are not strings at `choices[0].delta.content`, such as numbers or objects,
  are not modelled. The content is a string or missing, and a missing or empty content gives "".
- Request and reply fields that are `null` or not strings are not modelled, because `Field` holds
  only strings or a missing key. Examples:
  - a permit request with `"township": null` passes the guard, and its prompt then says "null";
    `Interpolated` can only print "undefined", for a missing key;
  - `{"city": 0, ...}` is falsy, and `{"address": 12}` is truthy and gets geocoded.
- A kept piece that parses to JSON `null` is not modelled: `parse` either yields a content or
  throws a `SyntaxError`. In the page, `json.choices` on `null` throws a `TypeError` in the second
  `.map`, which runs only after every kept piece has been parsed, so a later piece's `SyntaxError`
  would be thrown first.
- The UTF-8 behaviour of `TextDecoder` and `TextEncoder` is not modelled. The codec is a
  parameter, and `Lossless` is the only assumption made about it. A real `TextDecoder` is not
  `Lossless`: it replaces malformed bytes with U+FFFD and strips a leading byte order mark.
- `PermitRoute.Relay` does not model the decoder's final flush. The source never flushes it
  either, so whatever the decoder still holds at the end is dropped.
- PermitRoute.RelayPreservesBytes: it proves only that what goes missing is `FinalCarry`,
  whatever that holds. It does not prove that this is at most an incomplete trailing character,
  because `Lossless` is also met by a codec that decodes nothing and keeps every byte.
- React rendering, hooks and the map search box are not modelled. Neither are `handleChange`,
  `handleOnPlacesChanged` or the `loading` flag. The ghost `Screens` field records every state
  `setPermitInfo` installs, in place of rendering, each computed when `setPermitInfo` is called.
- Environment API keys, `NextResponse` construction and response headers are framework plumbing
  and are not modelled.
- Concurrency is not modelled:
  - `handleLocationFetch` starts `fetchPermitInfo` without awaiting it. The model runs the two
    in sequence.
  - Overlapping submissions and the suspension at `await reader.read()` are not modelled.
    Reads are a finite sequence.
  - React's deferred updates are not modelled. The updater handed to `setPermitInfo` reads the one
    shared `result` variable when React runs it, at the next render. When several chunks arrive
    before a render, the queued updates all see a later `result`, so the states installed can
    be `[r1, r3, r3]` where the model records `[r1, r2, r3]`. The model applies each update at
    once, with that chunk's `result`. The final state is the same either way.
- Text.ReplaceFirst: the replacement is inserted as it is. JavaScript would expand `$&`, `$$`,
  `` $` `` and `$'` in it. The only call passes "".
- Location.PickIsLastMatch: its statement follows directly from the contract of
  `Location.LastFilling`. It is kept as the reader-facing statement of "last match wins".
- PermitRoute.UserPrompt: its own contract states only the prompt's length. The content and
  field order are stated in `PermitRoute.PromptFieldsInOrder`.
- Page.LocationOutcome: its own contract covers only the non-OK reply. How the route's
  responses come through is stated by `Page.LocationRouteToPage`.
