# ThumbBot link dispatch, logging and metrics — a Dafny model

ThumbBot is a Discord bot. It watches chat messages for links to
video sites and hands each supported link to a downloader service. This
project models three pieces of it and proves properties of them:

- **The message handler** (`src/services/botEvents.ts`). It finds the
  first match of `/(https?:\/\/[^\s]+)/i` in a message. It tests that match
  against the provider list with a case-sensitive substring check. It sends
  at most one `videoRequest(url, channelId)`.
  - `UrlMatch` defines the regular expression twice: declaratively, as
    "the leftmost, then longest, match", and as an executable scan. It proves
    the two agree.
  - `BotEvents` threads the requests sent so far as a sequence and appends
    the one the handler makes.
- **The logger's decisions** (`src/utils/logger.ts`). These are:
  - which winston logger the constructor picks;
  - the level and text that `success`, `logApiRequest` and
    `logProviderCheck` emit;
  - the plain shape of the printed line: upper-cased level padded to seven,
    ` | `, the message, and the JSON of the metadata without `service`.

  A log call is a pure function returning the entry it emits. `Text` and
  `Json` hold the JavaScript string helpers the line is built from:
  `toUpperCase`, `padEnd`, number interpolation and `JSON.stringify`.
- **The metrics recording rules** (`src/utils/metrics.ts`). The
  Prometheus registry is an in-memory recorder:
  - counters are maps from label tuples to counts;
  - gauges are a map;
  - the downloader histogram is its sequence of observations.

  Each tracking function is a function from recorder to recorder.
  A log of calls can be replayed. `ReplayCounts` relates the replayed
  counters to an independent count of the calls in the log.

What the handler does not do, as the code stands:
- it has no bot-author check, so a bot's message is handled like any other
  (`AuthorIgnored` states this outright);
- it gives an unsupported link no host-derived label;
- it does no classification of downloader failures;
- it never uses `MetricsContext`.

Files: `wrappers.dfy` (Option), `text.dfy`, `json.dfy`, `url_match.dfy`,
`bot_events.dfy`, `logger.dfy`, `metrics.dfy`.

## Model

| member | source | states |
|---|---|---|
| UrlMatch.RunEnd | src/services/botEvents.ts:5 | `[^\s]+` is greedy: the run ends at the end of the text or at the first whitespace character, and holds no whitespace |
| UrlMatch.FindFrom | src/services/botEvents.ts:5 | the scan returns the leftmost position where `http://` or `https://` (any ASCII case) is followed by a non-whitespace character, and no earlier position qualifies |
| UrlMatch.SchemesExclusive | src/services/botEvents.ts:5 | the two alternatives of `https?` never both match at one position |
| UrlMatch.MatchesAtIff | src/services/botEvents.ts:5 | a regex match from i to j exists exactly when a scheme plus a non-space character starts at i and j lies after the scheme and within the whitespace-free run |
| UrlMatch.IsLink | src/services/botEvents.ts:25-30 | `isLink` computed by scanning: a result is longer than `http://` and no longer than the content; what it returns is stated against the expression by `IsLinkMatchesRegex` |
| UrlMatch.IsLinkMatchesRegex | src/services/botEvents.ts:25-30 | `isLink` returns null iff the expression matches nowhere, and returns u iff u is the leftmost-longest match |
| UrlMatch.FirstMatchUnique | src/services/botEvents.ts:27-29 | there is only one first match, so `match[0]` is well defined |
| UrlMatch.IsLinkIdempotent | src/services/botEvents.ts:25-30 | applying `isLink` to its own result returns that result |
| UrlMatch.IsLinkShape | src/services/botEvents.ts:27-29 | a result is a contiguous substring of the content, ends at the content's end or before whitespace, starts with a scheme, is longer than the scheme and holds no whitespace |
| UrlMatch.WholeLinkShape | src/services/botEvents.ts:5 | a string that is its own first match starts with a scheme, has at least one more character and holds no whitespace |
| UrlMatch.LaterLinkIgnored | src/services/botEvents.ts:27-29 | once a link has been found and followed by whitespace, nothing appended changes the result, so later URLs are never returned |
| UrlMatch.SchemeAloneIsNoLink | src/services/botEvents.ts:5 | `"http:// x"` yields null: a scheme must be followed directly by a non-whitespace character |
| UrlMatch.NoLinkWithoutP | src/services/botEvents.ts:25-30 | text with no `p` or `P` holds no link |
| UrlMatch.NoStartInLinkFreeText | src/services/botEvents.ts:5 | a match cannot start in leading text that holds none and ends in whitespace, whatever text follows, because a scheme and the character after it are never whitespace |
| UrlMatch.LinkAfterPlainText | src/services/botEvents.ts:25-30 | a link is the result when the text before it ends in whitespace and holds no match of its own, and the link is followed by whitespace or the end |
| UrlMatch.UpperCaseSchemeIsLink | src/services/botEvents.ts:5 | the `i` flag: `HTTPS://Example.org/A` inside a sentence is found, case preserved |
| UrlMatch.ScenarioInstagram | src/services/botEvents.ts:25-30 | the Instagram link in the middle of a sentence is extracted exactly |
| UrlMatch.ScenarioExampleOrg | src/services/botEvents.ts:25-30 | `http://example.org/x` at the end of a sentence is extracted exactly |
| BotEvents.Includes | src/services/botEvents.ts:33 | `link.includes(p)` holds iff `p` occurs in `link` at some index |
| BotEvents.ContainsProviderLink | src/services/botEvents.ts:32-34 | true iff some provider entry occurs as a case-sensitive substring of the link |
| BotEvents.ContainsProviderLinkOrderFree | src/services/botEvents.ts:33 | the answer depends only on which entries are listed, not on their order or repetition |
| BotEvents.ContainsProviderLinkEdges | src/services/botEvents.ts:33 | an empty list supports nothing; a list holding `""` supports every link |
| BotEvents.HandleMessageCreate | src/services/botEvents.ts:8-21 | at most one request is appended, earlier ones kept; one is appended iff `isLink` finds a link that the provider test accepts, and it carries that link and the message's channel id |
| BotEvents.HandleMessageCreateSpec | src/services/botEvents.ts:8-21 | stated against the regular expression itself: a request is sent iff the first match contains some provider entry, and it carries exactly that match |
| BotEvents.OnlyFirstLinkClassified | src/services/botEvents.ts:12-20 | when the first link is unsupported nothing is sent, whatever follows it |
| BotEvents.AuthorIgnored | src/services/botEvents.ts:8-21 | the handler never looks at the author: a bot's message is handled like anyone's |
| BotEvents.ScenarioSupported | src/services/botEvents.ts:8-21 | the Instagram message in channel 42 sends exactly one request with that link and channel |
| BotEvents.ScenarioUnsupported | src/services/botEvents.ts:14-19 | a link to example.org with the Instagram/TikTok registry sends nothing |
| BotEvents.ScenarioNoLink | src/services/botEvents.ts:12-14 | `"no links here"` sends nothing |
| BotEvents.ScenarioRegistrySupports | src/services/botEvents.ts:32-34 | the Instagram link is supported by the Instagram/TikTok registry |
| Text.ToUpperAscii | src/utils/logger.ts:12 | `toUpperCase` keeps the length, leaves no lower-case ASCII letter, and changes no character beyond its ASCII case |
| Text.ToUpperAsciiIdempotent | src/utils/logger.ts:12 | upper-casing an already upper-cased level name changes nothing |
| Text.PadEnd | src/utils/logger.ts:12 | `padEnd(7)` keeps the text as its prefix and fills with spaces up to the width, never truncating |
| Text.IntToStringRoundTrip | src/utils/logger.ts:84 | the decimal text interpolated for a status reads back as the same integer |
| Text.IntToStringInjective | src/utils/logger.ts:84 | distinct statuses print differently |
| Json.EscapeRoundTrip | src/utils/logger.ts:22 | `JSON.stringify`'s string escaping loses nothing: unescaping gives the original string back |
| Json.RenderObject | src/utils/logger.ts:21-22 | the metadata text starts with `{` and ends with `}`, and is `{}` exactly when there are no properties |
| Json.RenderObjectHoldsMembers | src/utils/logger.ts:21-22 | every printed property appears in the object text as its quoted key, a colon and its JSON value |
| Logger.NewLogger | src/utils/logger.ts:44-46 | a child logger tagged with `service` iff `service` is present and non-empty, otherwise the shared base logger |
| Logger.ConstructorServiceTag | src/utils/logger.ts:29-46 | whatever name the constructor gets, every entry carries `thumbbot-discord-bot`: the record built from `defaultMeta` already holds `service`, so the child's tag is shadowed and a named logger emits what the unnamed one does |
| Logger.Emit | src/utils/logger.ts:48-62 | the level methods pass the message and metadata on unchanged, at their own level, tagged with the shared service name |
| Logger.Success | src/utils/logger.ts:64-66 | one info entry whose text is `✅ ` followed by the message, with the same metadata |
| Logger.LogApiRequest | src/utils/logger.ts:81-93 | status in [200,300): info `✅ M U -> s`; status ≥ 400: error `M U -> s`; other non-zero status: info `M U -> s`; missing or 0: info `🚀 M U` |
| Logger.ApiRequestStatusRecoverable | src/utils/logger.ts:84-88 | the status can be read back from the end of the logged message |
| Logger.ServerErrorLine | src/utils/logger.ts:85-86 | `POST /videos` with status 500 prints `ERROR` padded with two spaces to seven characters, then a space, a bar and a space, then `POST /videos -> 500` |
| Logger.LogProviderCheck | src/utils/logger.ts:95-101 | a supported link gives a success entry; an unsupported one gives a debug entry; exactly one entry either way |
| Logger.ProviderCheckVisibleByDefault | src/utils/logger.ts:95-101 | at the default `info` threshold an entry is printed iff the link is supported |
| Logger.WithoutService | src/utils/logger.ts:10 | the properties printed are exactly the metadata properties other than `service` |
| Logger.WithoutServiceKeepsOrder | src/utils/logger.ts:10 | the printed properties keep their metadata order: a kept property stays between what came before it and what came after it |
| Logger.Printf | src/utils/logger.ts:10-25 | the console line, colours removed: level column, a bar between two spaces, the message, and the JSON of the metadata other than `service` when any remains; stated by `PrintfShape`, `PrintedMetadata` and `PrintedProperty` |
| Logger.PrintedMetadata | src/utils/logger.ts:21-24 | when some property other than `service` remains, the line goes on after the message with a space and exactly the JSON object of those properties |
| Logger.PrintedProperty | src/utils/logger.ts:21-24 | every metadata property other than `service` appears after the message as its quoted key, a colon and its JSON value |
| Logger.LevelColumnShape | src/utils/logger.ts:11-17 | the level column is always seven characters: the upper-cased level name followed by spaces |
| Logger.PrintfShape | src/utils/logger.ts:10-24 | a line is the level column, a bar between two spaces, the message, then a suffix that is empty iff every metadata property is `service` |
| Logger.ServiceNeverPrinted | src/utils/logger.ts:10 | neither the logger's service tag nor a `service` metadata property changes the printed line |
| Logger.ServicePropertyDropped | src/utils/logger.ts:10 | a `service` property added to the metadata leaves the printed suffix exactly as it was |
| Metrics.Inc | src/utils/metrics.ts:67 | `labels(...).inc()` adds one at that label tuple and changes no other count |
| Metrics.TrackMessage | src/utils/metrics.ts:66-68 | adds one to the messages counter at (guild, channel, "true"/"false") and changes nothing else |
| Metrics.LinkFlagSeparatesSeries | src/utils/metrics.ts:66-68 | a message with a link and one without, from the same guild and channel, are counted on two different series, one count each |
| Metrics.TrackLinkDetection | src/utils/metrics.ts:70-72 | adds one to the link-detection counter at (provider, "true"/"false") and changes nothing else |
| Metrics.TrackDownloaderRequest | src/utils/metrics.ts:74-79 | adds one at the status and appends the response time to the histogram iff one is given |
| Metrics.ZeroResponseTimeObserved | src/utils/metrics.ts:76-78 | a response time of 0 is still observed; a missing one is not |
| Metrics.TrackApiError | src/utils/metrics.ts:81-83 | adds one to the api-errors counter at (endpoint, errorType) and changes nothing else |
| Metrics.SetGauge | src/utils/metrics.ts:86 | a gauge reads the value just set; other gauges and all counters are unchanged |
| Metrics.UpdateGuildCount | src/utils/metrics.ts:85-87 | the guild gauge reads the given count; nothing else changes |
| Metrics.UpdateActiveConnections | src/utils/metrics.ts:89-91 | the connection gauge reads the given count; nothing else changes |
| Metrics.GaugeLastWriteWins | src/utils/metrics.ts:85-91 | of two updates the second wins, and repeating an update changes nothing |
| Metrics.IncrementBotReady | src/utils/metrics.ts:93-95 | the ready counter grows by one; nothing else changes |
| Metrics.ContextMeasuresElapsed | src/utils/metrics.ts:102-110 | a context made at one clock reading and finished at another observes exactly the time in between, whatever its labels |
| Metrics.Finish | src/utils/metrics.ts:107-110 | one request counted at the status and one observation equal to the time elapsed since construction; nothing else changes |
| Metrics.FinishIgnoresLabels | src/utils/metrics.ts:98-110 | the constructor's labels never affect what `finish` records |
| Metrics.FinishTwice | src/utils/metrics.ts:107-110 | there is no once-only guard: a second `finish` records a second count and observation |
| Metrics.ApplyStep | src/utils/metrics.ts:66-95 | one call adds one at its own label tuple of its own counter, or one observation, and nothing elsewhere |
| Metrics.ReplayCounts | src/utils/metrics.ts:66-95 | after a log of calls, each counter has grown by exactly the number of calls naming its label tuple, and the histogram by exactly the given response times, in order |
| Metrics.CountersMonotone | src/utils/metrics.ts:66-95 | counters and the histogram never shrink |
| Metrics.GaugeHoldsLastWrite | src/utils/metrics.ts:85-91 | a gauge holds the value of the last call that wrote it |
| Metrics.GaugeUntouched | src/utils/metrics.ts:85-91 | a gauge that no call writes keeps its value; no tracking call writes the uptime gauge |
| Metrics.StartupSequence | src/utils/metrics.ts:66-95 | ready, guild count 5, one connection, one message with a link, one detection and one timed request leave exactly those readings |

## Left out

- The Discord session and the process start-up (`src/bot/discord.ts`, `src/index.ts`, `src/functions/discord.ts`) are network I/O. Their `MessageCreate` listener never calls the handler.
- The downloader client (`src/services/api.ts`) is not part of this model. `videoRequest` catches every failure, so the handler treats it as an effect that always completes; the model records the call and nothing about the HTTP exchange.
- The provider list is read from `providers.json` at load time. That file is not part of this model, so the list is a parameter.
- The Express metrics and health server, `metricsMiddleware`, server start and stop, and the signal handlers are I/O and process control. So are the five-second uptime timer and `collectDefaultMetrics`.
- Histogram bucket boundaries are left out; the histogram is its plain sequence of observations.
- Metrics.Finish: records elapsed time as whole milliseconds (`now - startTime`), not as the float seconds `/ 1000` gives; the clock reading is a parameter.
- Metrics.UpdateGuildCount: gauge and response-time values are integers, not arbitrary JavaScript numbers (no fractions, NaN or infinities).
- Text.IntToString: prints every integer in full. JavaScript prints a number of magnitude 2^53 or more with only the shortest digits that identify the double, padded with zeros (`${2**64}` is `18446744073709552000`), and from 10^21 on in exponent form. So a status, or an integer metadata value printed by `Json.Render`, of that size reads differently in the program's output.
- Logger.LogApiRequest: the status is an integer; NaN, fractional statuses and numbers printed in exponent form are not modelled, and a status of magnitude 2^53 or more prints in full (see the `Text.IntToString` line).
- Logger.NewLogger: the child/base choice covers string arguments only. Other truthy values are not modelled.
- Logger.WithoutService: metadata is a flat list of distinct-keyed properties with null, boolean, integer or string values; integers of magnitude 2^53 or more print in full (see the `Text.IntToString` line). These are not modelled:
  - winston's merging of a metadata object into the log record;
  - its reserved `level` and `message` keys;
  - the `errors({ stack })` format;
  - a `service` property in a call's metadata replacing the record's tag: the model keeps it among the metadata, and the printed line drops it either way.
- Logger.ServiceOf follows how winston 3 builds a record (`defaultMeta` first, then a child's `write` copying the record over its own `{ service }`); winston's own code is not part of this model.
- Json.RenderObject: the contract and `RenderObjectHoldsMembers` fix the braces and that every property appears; the order of the properties and the commas between them are not stated as a property.
- Colours (chalk), the console transport, and the `LOG_LEVEL` environment lookup are left out; the threshold is the default `info`.
- The other logger helpers are left out: `info`/`warn`/`error`/`debug` beyond `Emit`, and `logBotReady`, `logMessageReceived`, `logLinkDetected`, `logSystemInfo` and `logConfigLoaded`. They only format a message and call the level methods.
- UrlMatch.IsLink: indices count Unicode scalar values, while JavaScript counts UTF-16 code units. Every whitespace character the expression knows lies in the Basic Multilingual Plane, so the text matched is the same; only positions differ for text holding astral characters.
