# AI-Marketing-Agent `/scrape` handler in Dafny

The repository is a single Express route, `POST /scrape`. It checks the
JSON body, fetches the page at `url`, strips the markup down to plain text,
asks a generative-language service for research queries about a topic, and
then asks it again for a social-media post built from that research and the
page text. This project models the parts of the handler that can be stated
exactly. All of them are pure, so they are Dafny functions with lemmas
about them:

- **The normaliser** (`normalizer.dfy`, `normalizer_facts.dfy`) turns the
  fetched HTML into text. It runs four global regular-expression replaces
  and then `trim`. Each pass is a left-to-right scan over `seq<char>`. A
  scan keeps the regular expression's leftmost, non-overlapping,
  single-pass matching. It also keeps the lazy `[\s\S]*?` that stops at the
  nearest closing tag, the ASCII-only case folding of the `i` flag, and
  JavaScript's `\s` class, written out as `IsJsSpace`.
- **The JavaScript values** (`jsvalue.dfy`) model the parsed request body.
  They cover truthiness, `typeof`, property access, `String(v)` and
  `Array.prototype.join`, including the TypeError both throw on an object
  that has its own `toString` key and so no primitive value.
- **The checks** (`validation.dfy`) are the five early returns, in their
  order, each with its exact 400 message. Between the third and the
  fourth they compute `audienceRegionsStr`, whose `join` can throw, which
  ends the request in the `catch` block. They also hold the URL protocol
  test.
- **The `catch` block** (`upstream.dfy`) picks the `error` text of the 500
  response from the thrown value.
- **The handler** (`scrape.dfy`) maps a request body to the response it
  sends: a 400, a 200, a 500, or no response at all. URL parsing, the page
  fetch and both generation calls are function parameters.

## Model

| member | source | states |
|---|---|---|
| `JsText.AsciiLower` | server.js:80-81 | Under the `i` flag each of 'A'..'Z' folds onto its own lower-case letter, so 'S' matches 's'. No other character folds onto a lower-case ASCII letter, and every other character is left as it is |
| `JsText.NatToString` | server.js:189 | The status is printed as decimal digits, at least one, with no leading zero |
| `JsText.IntToString` | server.js:189 | An integer prints as '-' exactly when it is negative, followed only by decimal digits, with no leading zero, that read back as its magnitude |
| `JsText.NatToStringRoundTrip` | server.js:189 | Reading back the printed digits gives the status code again |
| `Normalizer.PatternsAreLower` | server.js:80-81 | The four literal patterns `<script`, `</script>`, `<style`, `</style>` hold no upper-case letter |
| `Normalizer.StartsWithCIFoldsBoth` | server.js:80-81 | For a lower-case pattern, the match test equals folding both the text and the pattern with ASCII-only case folding, as the non-unicode `i` flag does |
| `Normalizer.FindCI` | server.js:80-81 | The lazy body stops at the nearest case-insensitive closing tag: the offset found matches, no earlier offset matches, and when nothing is found no offset matches |
| `Normalizer.StripBlocks` | server.js:80-81 | A script or style pass never makes the text longer |
| `Normalizer.Trim` | server.js:84 | The trimmed text neither starts nor ends with a `\s` character |
| `NormalizerFacts.StripUnchangedIff` | server.js:80-81 | A strip pass leaves its input unchanged exactly when no `<script`…`</script>` (or style) block occurs in it |
| `NormalizerFacts.StripShortens` | server.js:80-81 | Whenever a block occurs, the pass deletes something |
| `NormalizerFacts.StripKeepsPrefix` | server.js:80-81 | Text in which no block starts is copied unchanged ahead of whatever the pass does to the rest |
| `NormalizerFacts.StripDeletesBlock` | server.js:80-81 | A block whose opening and closing tags match in any letter case is deleted together with everything up to the nearest closing tag. Nothing is left in its place, the text before it (any text in which no block starts, tags included) is kept, and scanning resumes right after that tag |
| `NormalizerFacts.NoTagNoBlock` | server.js:80-82 | Tag-free text contains no script or style block |
| `NormalizerFacts.ReplaceTagsChars` | server.js:82 | The tag pass adds no character except the ' ' that replaces a tag |
| `NormalizerFacts.ReplaceTagsNoTag` | server.js:82 | After the tag pass, every `<` is followed at once by `>` or has no `>` anywhere after it |
| `NormalizerFacts.ReplaceTagsUnchangedIff` | server.js:82 | The tag pass leaves its input unchanged exactly when the input is already tag-free |
| `NormalizerFacts.ReplaceTagsSeparates` | server.js:82 | When no tag starts before it (a `<` there may still be followed at once by `>` or by no `>`), a tag `<t>` becomes exactly one space, so the text before and after it stays apart |
| `NormalizerFacts.CollapseSpaceSingleSpaced` | server.js:83 | After collapsing, the only whitespace left is a lone ' ', and no two whitespace characters are adjacent |
| `NormalizerFacts.CollapseSpaceKeepsText` | server.js:83 | Collapsing keeps every non-whitespace character, in order |
| `NormalizerFacts.CollapseSpaceUnchangedIff` | server.js:83 | Collapsing leaves its input unchanged exactly when the input is already single-spaced |
| `NormalizerFacts.CollapseSpaceAppend` | server.js:83 | No whitespace run reaches across a non-blank character: text that ends in one is collapsed on its own |
| `NormalizerFacts.CollapseSpaceSeparates` | server.js:83 | A whitespace run between two words becomes exactly one ' ', neither deleted nor merged into the words |
| `NormalizerFacts.CollapseSpaceKeepsNoTag` | server.js:82-83 | Collapsing whitespace cannot create a tag |
| `NormalizerFacts.TrimKeepsText` | server.js:84 | Trimming keeps every non-whitespace character |
| `NormalizerFacts.TrimKeepsShape` | server.js:84 | Trimmed text stays single-spaced and tag-free when its input was |
| `NormalizerFacts.TrimUnchangedIff` | server.js:84 | Trimming changes nothing exactly when neither end is whitespace |
| `NormalizerFacts.TrimJoin` | server.js:84 | Trimming two words joined by one ' ' trims only the outer ends and keeps the ' ' |
| `NormalizerFacts.NormalizeIsClean` | server.js:79-84 | The text has no leading or trailing whitespace and no two adjacent whitespace characters, and no `<…>` tag survives |
| `NormalizerFacts.NormalizeKeepsText` | server.js:79-84 | Apart from whitespace, the text equals what the strip passes and the tag pass left |
| `NormalizerFacts.NormalizeFixedPoints` | server.js:79-84 | The normaliser leaves a string unchanged exactly when it is trimmed, single-spaced and tag-free |
| `NormalizerFacts.NormalizeIdempotent` | server.js:79-84 | Normalising normalised text returns it unchanged |
| `NormalizerFacts.NormalizePlain` | server.js:79-84 | Markup without any `<` is only collapsed and trimmed |
| `NormalizerFacts.OneOpenerNoBlock` | server.js:80-81 | A string with a single `<` holds no script or style block, since a block needs a `<` to open it and another to close it |
| `NormalizerFacts.NormalizeSeparatesTag` | server.js:79-84 | In a string with exactly one tag (no '<' in `a`, `t` or `b`), the tag between two words becomes exactly one space in the text: `a<t>b` normalises to the normalised `a`, one ' ', and the normalised `b` |
| `JsValue.ToJsString` | server.js:53-54 | `String(v)` succeeds exactly on values that convert: an object converts only without its own `toString` key, an array only when all its elements convert. A string converts to itself and a converting object to "[object Object]" |
| `JsValue.Join` | server.js:53-54 | `join` succeeds exactly when every element converts; one element that does not makes the whole join throw |
| `JsValue.JoinOfStrings` | server.js:53-54 | Joining an array of strings puts the separator between neighbours and nowhere else |
| `Validation.AudienceRegionsText` | server.js:53-55 | An array becomes a string exactly when all its elements convert, and throws otherwise; anything else passes through unchanged |
| `Validation.Validate` | server.js:25-68 | The checks run in the fixed order url → post_topic object → three fields → join of `audience_regions` → URL parse → protocol. Each failure holds exactly when every earlier step passed and its own failed; the join's failure is a thrown TypeError, not a 400. A body that passes carries the parsed URL, whose protocol is "http:" or "https:", the three fields, the rendered regions and the `rendered` flag |
| `Validation.ProtocolMatchesExactly` | server.js:64 | `/^https?:$/` accepts "http:" and "https:" and nothing else |
| `Validation.ValidateReadsParsedUrlOnly` | server.js:58-64 | Only the parsed URL decides the last two checks; the raw string does not |
| `Validation.ArrayPostTopicFailsFieldCheck` | server.js:36-50 | An array `post_topic` passes the object check and then fails the field check |
| `Validation.EmptyRegionsAccepted` | server.js:45-55 | An empty `audience_regions` array passes the field check and renders as "" |
| `Validation.AudienceRegionsRendering` | server.js:53-55 | A singleton yields its element, an array of strings yields them joined with ", ", and a string passes through unchanged |
| `Validation.TwoRegions` | server.js:53-55 | `["US", "EU"]` renders as "US, EU" |
| `Upstream.FaultMessage` | server.js:188-190 | The error text is never empty |
| `Upstream.FaultMessagePrecedence` | server.js:188-190 | A response status wins over any message, whatever the message says. A non-empty message wins over "fetch failed", which is used only when neither is present |
| `Upstream.UpstreamStatusReadBack` | server.js:189 | The message is "Upstream ", then exactly the status's decimal digits (`NatToString`), which read back as the status, then a space and the status text |
| `Upstream.NotFoundMessage` | server.js:188-191 | An upstream 404 "Not Found" becomes "Upstream 404 Not Found" |
| `Scrape.FaultResponse` | server.js:186-191 | A fault always becomes status 500 with an `ok:false` body and a non-empty error |
| `Scrape.FastPath` | server.js:71-168 | The fast path answers 200 with a scraped body or 500 with a failure body. After a successful fetch, a `topic`, `focus` or rendered regions value that does not convert makes the prompt template throw, giving the TypeError's 500. A 200 implies all three convert and carries the serialised URL and the fetched page, its text is the normalised page, and it holds the results of both generation calls, each made on the previous step's output. Conversely, when the fetch succeeds, the three values convert and both calls succeed, the answer is exactly that 200 |
| `Scrape.Handle` | server.js:25-191 | A failed check always yields 400 with its message, and the thrown `join` yields the `catch` block's 500 for it. Otherwise there is no response exactly when `rendered` is truthy, and a body that passes without `rendered` gets exactly the fast path's response. Every response is 200, 400 or 500, and a 200 is a scraped body for the parsed URL with normalised text |
| `Scrape.NoCallsUnlessFastPath` | server.js:29-71 | A body that fails a check or sets `rendered` gets a response that does not depend on the fetch or on either generation call |
| `Scrape.FetchSeesSerialisedUrl` | server.js:60-76 | Only the fetch result at the parsed URL's serialisation matters |
| `Scrape.RegionWithToStringKeyThrows` | server.js:53-191 | An `audience_regions` array with an element that has its own `toString` key gets 500 "Cannot convert object to primitive value", whatever the URL, the parser and the three calls |
| `Scrape.ToStringKeyRegion` | server.js:53-68 | The region `{"toString": 1}` with an `ftp:` URL gets that 500, whatever the parser yields |
| `Scrape.FtpBodyRejected` | server.js:53-68 | The same body with the region "US" reaches the protocol check and gets its 400 |
| `Scrape.FaultsBecome500` | server.js:72-191 | A fetch, discovery or composition failure yields the mapped 500 for that fault, and earlier results are discarded |
| `Scrape.ScrapedTextIsClean` | server.js:79-167 | The `text` of a 200 is trimmed, single-spaced and tag-free, and normalising it again changes nothing |

JavaScript details that the model keeps:

- The `url` check also rejects an empty string, because `""` is falsy.
- An array passes the `post_topic` object check, because `typeof [] === "object"`.
- The normaliser does not decode entities. The markup
  `<script>x()</script><p>Hello &nbsp; World</p>` therefore becomes
  `Hello &nbsp; World`, not `Hello World`. `NormalizeKeepsText` shows that
  the only change beyond the deleted blocks and tags is whitespace.

## Left out

- The page fetch with its `User-Agent` and `Accept` headers, 15-second timeout and 5-redirect cap (server.js:72-76) is network I/O. It is the `fetch` parameter.
- A page body that the HTTP client returns already parsed (not a string) is left out. Its `.replace` call would throw, and the `catch` block would turn that into a 500.
- Both generation calls (server.js:86-159) are a foreign service. They are the `discover` and `compose` parameters. The model leaves out their model name, system instructions, prompt templates, search tool, thinking budget and the `JSON.stringify` of the framed reply.
- `compose` receives the whole first reply rather than only its `.text`, because the reply is an opaque value.
- An undefined `.text` on the second reply, which would drop `post` from the JSON, is not modelled.
- URL parsing and serialisation (`new URL`, `toString()`) are the `parse` parameter. It yields the parsed protocol and serialised form, or nothing when parsing throws.
- Express setup, the 200 kB body limit, `listen`, the `PORT` variable and the hard-coded key (server.js:14-18, 195-198) are framework plumbing.
- The console logging (server.js:26-27, 77, 111, 113, 187) is left out.
- The commented-out browser-rendering path (server.js:171-185) is not code, so it is not modelled. A truthy `rendered` yields `NoResponse`.
- async scheduling and concurrent requests are left out, since no value depends on them.
- JSON numbers are integers here. Fractions, `-0` and exponents are not modelled, so `String(n)` is modelled only for integers.
- `JsText.IntToString` prints every decimal digit of an unbounded integer. `JSON.parse` rounds integers beyond 2^53 to the nearest double, and JavaScript prints magnitudes of 1e21 and above in exponent form ("1e+21"); neither is modelled. This matters only for numbers inside an `audience_regions` array; HTTP status codes are far below both bounds.
- A `join` or template literal whose result would exceed JavaScript's maximum string length throws a RangeError; strings are unbounded here, so that throw is not modelled.
- Strings are sequences of Unicode scalar values, not UTF-16 code units, so lone surrogates cannot occur. None of the patterns mentions a surrogate.
- `Upstream.FaultMessage`: its own contract states only that the text is non-empty. Which text is chosen is stated by `Upstream.FaultMessagePrecedence` and `Upstream.UpstreamStatusReadBack`.
- `Normalizer.StripBlocks`: its own contract states only the length bound. What it deletes is stated by `NormalizerFacts.StripDeletesBlock` and `NormalizerFacts.StripUnchangedIff`.
