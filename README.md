# YouTube channel lister and transcript viewer: a verified Dafny model of its decision logic

The repository is a small Node/Next.js application. It lists a YouTube channel's videos and
separates Shorts from regular videos. It also shows a video's transcript, and can summarise it.
This project models the parts of it that decide things, as Dafny code with proofs:

- **Durations** (`duration.dfy`): `parseDuration`, which reads the `PT#H#M#S` form of an
  ISO 8601 duration with a leftmost, unanchored match. server.js and lib/youtube.js hold the same
  code, and one Dafny function models both copies.
- **Shorts classifiers**: the server.js `isYouTubeShort` (`server_shorts.dfy`) checks its rules in
  this order: keyword, vertical thumbnail, at most 60 s, over 180 s. The lib/youtube.js variant
  (`lib_shorts.dfy`) answers `false` or `null` ("ask the probe") and never `true`. Each file also
  holds the decision `isYouTubeShortEnhanced` takes on its probe's answer:
  - server.js probes with a HEAD request, so the decision works on an HTTP status;
  - lib/youtube.js runs a video-inspection tool, so the decision works on a width and height.
- **Channel identity** (`channel_url.dfy`, `handle_lookup.dfy`): `extractChannelId` first cuts a
  `/videos`, `/shorts`, … tail. It then tries the four address shapes in order, and sends
  `/@handle` addresses to handle lookup. The two versions of `getChannelIdFromHandle` pick from
  channel-search results:
  - server.js tries three queries and four ranking rules;
  - lib/youtube.js takes the first result of the `@handle` query.
- **Channel listing** (`listing.dfy`, `pipeline.dfy`, `channel_videos.dfy`, `server_route.dfy`):
  `POST /api/channel-videos` exists as a Next.js handler and as an Express route in server.js.
  Both run the same steps:
  1. resolve the channel;
  2. list `max(5·maxResults, 100)` videos;
  3. build `videoDetailsMap`;
  4. classify each video, escalating uncertain ones to the probe;
  5. partition into `shorts` and `regularVideos`;
  6. select by `contentType`, sorting newest first for `both`;
  7. truncate to `maxResults` and count the returned items by type.
- **Transcript view** (`transcript_view.dfy`): `formatTranscript` of pages/watch.js, which does
  one of two things:
  - it hands text holding `##` to `parseMarkdown`, of which the empty-input rule and the header
    and bold passes are modelled;
  - otherwise it splits the text into sentences, trims them, drops blank ones, escapes `<` and
    `>` and wraps each sentence in `<p>`.

The code's stateful steps stay imperative. Building the details map, pushing into the two lists,
the per-video loop and the in-place sort of `combined` are methods with loop invariants. Each is
proved equal to a specification function, and lemmas then prove properties of that function.
The rest is functions and lemmas.

External calls are parameters: the YouTube Data API searches, the details lookup and the two
probes. A call that throws is `None`, or a dedicated constructor.

Facts about the code that the model keeps:
- server.js tests the Shorts keywords (server.js:190) before the 180 s ceiling, so a
  keyword-marked video longer than 180 s is a Short.
- server.js and lib/youtube.js classify Shorts by different rules, and each is modelled on its own.
- The address patterns require `youtube.com`, so addresses on other hosts give no id.
- The keyword test lower-cases ASCII letters only, and this is exact. The keywords ('#shorts',
  '#short', 'youtube shorts', 'ytshorts') contain no 'k' and no 'i'. The only non-ASCII characters
  whose lower case holds an ASCII letter are the Kelvin sign (to 'k') and the dotted capital I
  (to 'i' and a combining dot).

Behaviour the model keeps as the code has it:
- Both listing routes answer 500 when a video has a details record without a `duration` field.
  They call `parseDuration(undefined)`, which throws, and `Promise.all` rejects.
- A missing medium thumbnail also gives a 500.
- A missing `channelUrl` gives a 500, because `undefined.replace` throws inside the `try`.
- A `contentType` other than `shorts`, `videos` or `both` gives an empty listing without any
  video search.

## Model

| member | source | states |
|---|---|---|
| Duration.ParseDuration | server.js:163-165 | a string without "PT" parses to 0 |
| Duration.ParseFormat | server.js:163-172 | a duration written with optional hours, minutes and seconds groups parses to 3600·H + 60·M + S, an absent group counting 0 (the copy at lib/youtube.js:14-23 is the same code) |
| Duration.ReadWrittenGroups | server.js:164-171 | reading the three optional groups right after "PT" yields the written total |
| Duration.DigitsValueOfNatToDigits | server.js:168-170 | `parseInt` of a number's decimal digits gives the number back |
| Duration.ExampleMinutesSeconds | server.js:163-172 | "PT1M30S" parses to 90 |
| Duration.ExampleHours | server.js:163-172 | "PT2H" parses to 7200 |
| Duration.ExampleSeconds | server.js:163-172 | "PT45S" parses to 45 |
| Duration.ExamplesWithoutPT | server.js:164-165 | "garbage" and the day form "P1DT2H" both parse to 0 |
| ServerShorts.IsYouTubeShort | server.js:175-235 | no details or no (truthy) duration gives false; a duration of at most 60 s gives true |
| ServerShorts.KeywordBeatsDuration | server.js:184-196 | with a duration and a Shorts keyword in the lower-cased description and tags, the answer is true whatever the duration |
| ServerShorts.DecisionWithoutKeyword | server.js:199-234 | without a keyword: true iff (the first present thumbnail is vertical and duration ≤ 180) or duration ≤ 60 |
| ServerShorts.CeilingYieldsOnlyToKeyword | server.js:184-230 | over 180 s the answer is true iff a keyword is present |
| ServerShorts.FirstPresentThumbnailDecides | server.js:199-216 | only the first present size counts: a maxres thumbnail without width or height rules out the thumbnail test even if a smaller size is vertical |
| ServerShorts.MoreTagsKeepShort | server.js:187-196 | adding a tag never turns a Short into a regular video |
| ServerShorts.IsYouTubeShortEnhanced | server.js:242-268 | after a HEAD request, true iff the status is 200; the caller's fallback when the request throws |
| LibShorts.IsYouTubeShort | lib/youtube.js:26-44 | never true; null exactly when details with a truthy duration of at most 180 s are present |
| LibShorts.IsYouTubeShortEnhanced | lib/youtube.js:83-107 | the fallback when the probe fails or lacks a dimension; otherwise true iff height > width |
| LibShorts.PortraitProbe | lib/youtube.js:89-101 | 1080×1920 is a Short and 1920×1080 is not, whatever the fallback |
| ChannelUrl.StripSubsection | server.js:414 | the cleaned URL is a prefix of the URL, cut exactly at the first place where the subsection pattern matches, and unchanged when it matches nowhere |
| ChannelUrl.CutsAtFirstKeyword | server.js:414 | the cut happens at the first "/keyword" even when the keyword only starts a longer path segment |
| ChannelUrl.Capture | server.js:417-426 | a capture is the leftmost-greedy token: a non-empty `[A-Za-z0-9_-]` run right after the first occurrence of the pattern's prefix that is followed by an id character, stopping only at a non-id character or the end; none iff the pattern matches nowhere |
| ChannelUrl.CaptureIsLeftmostGreedy | server.js:417-426 | conversely, any leftmost-greedy token of a pattern is exactly what the capture returns |
| ChannelUrl.FirstCaptureFrom | server.js:424-434 | the loop yields a token iff one of the remaining patterns matches, and then it is the capture of the first matching one |
| ChannelUrl.ParseChannelUrl | server.js:410-437 | a channel reference exists iff one of the four shapes matches the cleaned URL; it is a handle iff the cleaned URL holds "/@"; its token is the capture of the first matching shape |
| ChannelUrl.ExampleDirectAddress | server.js:410-437 | "youtube.com/channel/UC_x-1/videos" is cut to the channel address and yields the direct id "UC_x-1" |
| ChannelUrl.ExampleHandleAddress | server.js:410-437 | "youtube.com/@Tech_Talks" yields the handle "Tech_Talks" |
| HandleLookup.NoSeparatorOneWord | server.js:490-497 | text without whitespace or hyphen splits into the single word it is |
| HandleLookup.FirstSatisfying | server.js:464-499 | a rule's loop returns the first item that satisfies it, or none satisfies it |
| HandleLookup.SelectIndex | server.js:462-503 | the chosen item is ranked best by the rule order (exact handle, title prefix, all words, first), and is the earliest among items ranked equally |
| HandleLookup.ServerLookupFrom | server.js:444-511 | no id iff no query is reached with a non-empty result (a failed search stops the loop); an id is the selection from the first non-empty result list |
| HandleLookup.ExactHandleWins | server.js:464-474 | when the "@handle" query returns the list, a result whose customUrl is "@"+lower(handle) wins over every earlier result that does not itself match the handle exactly |
| HandleLookup.SingleWordHandleNoWordRule | server.js:488-499 | a one-word handle never matches by the all-words rule |
| HandleLookup.LibFirstResultOfAtQuery | lib/youtube.js:139-177 | the lib lookup returns the first result of the "@handle" query, and nothing when that list is empty or the search fails |
| HandleLookup.ServerExtractChannelId | server.js:410-437 | an address no pattern recognises gives no id; a direct address gives its captured id; a handle address gives the handle lookup's answer |
| HandleLookup.LibExtractChannelId | lib/youtube.js:110-137 | an address no pattern recognises gives no id; a direct address gives its captured id; a handle address gives the lib handle lookup's answer |
| HandleLookup.DirectAddressesAgree | lib/youtube.js:110-137 | without "/@" both versions return the id captured by the first matching shape, whatever the search answers |
| HandleLookup.ExampleDirectId | server.js:410-437 | both versions turn "youtube.com/channel/UC_x-1/videos" into the id "UC_x-1" without searching |
| HandleLookup.ExampleHandleLookup | lib/youtube.js:110-137 | both versions answer "youtube.com/@Tech_Talks" with their own lookup of the handle "Tech_Talks" |
| HandleLookup.ServerGetChannelIdFromHandle | server.js:439-512 | no contract of its own: the three queries in order, specified by ServerLookupFrom, SelectIndex and ExactHandleWins |
| HandleLookup.LibGetChannelIdFromHandle | lib/youtube.js:139-177 | no contract of its own: specified by LibFirstResultOfAtQuery |
| Listing.Partition | pages/api/channel-videos.js:108-114 | the pushing loop yields exactly the `shorts` and `regularVideos` lists |
| Listing.PartitionSizes | pages/api/channel-videos.js:108-114 | the two lists together are as long as the processed list |
| Listing.PartitionKeepsVideos | pages/api/channel-videos.js:108-114 | together the two lists hold each processed video as often as it was listed |
| Listing.PartitionTags | pages/api/channel-videos.js:108-114 | `shorts` entries are tagged 'short' and `regularVideos` entries 'video' |
| Listing.ShortsKeepOrder | pages/api/channel-videos.js:108-114 | two Shorts keep their listing order in `shorts` |
| Listing.RegularKeepOrder | pages/api/channel-videos.js:108-114 | two regular videos keep their listing order in `regularVideos` |
| Listing.InsertKeepsOrder | pages/api/channel-videos.js:126 | inserting into a newest-first list keeps it newest first and adds exactly the item |
| Listing.NewestFirstSortsAndPermutes | pages/api/channel-videos.js:124-126 | the sort yields a newest-first permutation of `regularVideos ++ shorts` |
| Listing.NewestFirst | pages/api/channel-videos.js:124-126 | no contract of its own: the stable sort as repeated insertion, specified by NewestFirstSortsAndPermutes and InsertAt |
| Listing.InsertAt | pages/api/channel-videos.js:126 | the stable insertion puts an item right after the last item at least as new, with only older items behind it |
| Listing.InsertStep | pages/api/channel-videos.js:126 | one insertion step places `a[i]` into the sorted prefix and leaves the rest alone |
| Listing.SortNewestFirst | pages/api/channel-videos.js:126 | the in-place sort leaves the array equal to the stable newest-first sort of its old contents |
| Listing.Take | pages/api/channel-videos.js:119 | `slice(0, n)` is a prefix of length min(n, length) |
| Listing.Select | pages/api/channel-videos.js:118-129 | the selection chain returns the content-type selection |
| Listing.SelectContent | pages/api/channel-videos.js:118-129 | no contract of its own: the content-type selection, specified by SelectContentMeaning |
| Listing.PrefixKeepsNewest | pages/api/channel-videos.js:124-129 | a prefix of a newest-first list leaves out nothing newer than what it keeps |
| Listing.BothKeepsNewest | pages/api/channel-videos.js:124-129 | for 'both', the truncated sorted list is newest first, a sub-multiset of the two lists, a prefix of their sort, min(maxResults, total) long, and no item left out is newer than an item kept |
| Listing.SelectContentMeaning | pages/api/channel-videos.js:118-129 | at most maxResults items; 'shorts'/'videos' give a prefix of their list of length min(maxResults, list length); 'both' gives the min(maxResults, total) newest items of the two lists, newest first; other types give nothing |
| Listing.CountsAddUp | pages/api/channel-videos.js:135-145 | counts.regular + counts.shorts = counts.returned |
| Listing.ShortsCountAsShorts | pages/api/channel-videos.js:135-136 | a list of Shorts counts only Shorts |
| Listing.RegularCountAsRegular | pages/api/channel-videos.js:135-136 | a list of regular videos counts no Shorts |
| Listing.Respond | pages/api/channel-videos.js:108-145 | partition, selection and counts together give the selected list and its counts |
| Listing.RespondMeaning | pages/api/channel-videos.js:108-145 | the counts add up to the returned length, which is at most maxResults; 'shorts' returns only Shorts and 'videos' only regular videos, each a prefix of its list; 'both' returns the newest processed items, newest first |
| Pipeline.FetchSize | pages/api/channel-videos.js:27 | the fetch size is max(5·maxResults, 100) |
| Pipeline.BuildDetailsMap | pages/api/channel-videos.js:56-64 | the `forEach` builds the details map of the records |
| Pipeline.DetailsMapKeys | pages/api/channel-videos.js:56-64 | the map's keys are exactly the records' ids |
| Pipeline.DetailsMapLastWins | pages/api/channel-videos.js:57-58 | for a repeated id the last record's details are kept |
| Pipeline.VideoIds | pages/api/channel-videos.js:49 | one id per listed video, in order |
| Pipeline.ProcessAllMeaning | pages/api/channel-videos.js:67-105 | all videos are processed iff none throws, and then one result per video in listing order |
| Pipeline.FailureSpreads | pages/api/channel-videos.js:105 | one video that throws makes the whole `Promise.all` throw |
| Pipeline.ProcessVideos | pages/api/channel-videos.js:67-105 | the per-video loop computes the processed list, or the failure |
| Pipeline.List | pages/api/channel-videos.js:20-145 | the steps after the channel id yield the listing response |
| Pipeline.ListingFor | pages/api/channel-videos.js:20-145 | no contract of its own: the listing after the channel id, specified by List, OutcomeShape and ListingShape |
| Pipeline.OutcomeShape | pages/api/channel-videos.js:117-145 | the body's counts add up to at most maxResults items of the requested kind, newest first for 'both' |
| Pipeline.ListingShape | pages/api/channel-videos.js:20-145 | a listing is a 500 or a well-formed body; an unknown contentType gives the empty body with zero counts |
| ChannelVideosApi.FinalIsShortMeaning | pages/api/channel-videos.js:77-96 | the final isShort is a boolean unless the details lack a duration field; it is true iff the duration is truthy and at most 180 s and the probe reports both dimensions with height > width |
| ChannelVideosApi.FinalIsShort | pages/api/channel-videos.js:77-96 | no contract of its own: specified by FinalIsShortMeaning |
| ChannelVideosApi.Handle | pages/api/channel-videos.js:3-151 | the handler sends the specified response |
| ChannelVideosApi.HandleSpec | pages/api/channel-videos.js:3-151 | no contract of its own: specified by OnlyPostServed, UnrecognisedUrlIsBadRequest and ResponseShape |
| ChannelVideosApi.OnlyPostServed | pages/api/channel-videos.js:4-6 | the answer is 405 iff the method is not POST |
| ChannelVideosApi.UnrecognisedUrlIsBadRequest | pages/api/channel-videos.js:12-18 | an unrecognised channel address gives 400 before any listing |
| ChannelVideosApi.ResponseShape | pages/api/channel-videos.js:3-151 | every answer is 405, 400, 500 or a well-formed listing (maxResults defaulting to 20, contentType to 'videos'), and an unknown contentType lists nothing |
| ServerRoute.EscalationWindow | server.js:98-107 | the HEAD probe is consulted only for 60 < duration ≤ 180; there a status decides alone and a failed probe keeps the classifier's answer |
| ServerRoute.FinalIsShort | server.js:95-107 | no contract of its own: specified by EscalationWindow and ProbeOverridesKeyword |
| ServerRoute.ProbeOverridesKeyword | server.js:95-107 | a keyword-marked 90 s video whose /shorts/ address finally answers 404 ends up regular |
| ServerRoute.Handle | server.js:24-160 | the route sends the specified response |
| ServerRoute.HandleSpec | server.js:24-160 | no contract of its own: specified by UnrecognisedUrlIsBadRequest and ResponseShape |
| ServerRoute.UnrecognisedUrlIsBadRequest | server.js:29-35 | an unrecognised channel address gives 400 |
| ServerRoute.ResponseShape | server.js:24-160 | every answer is 400, 500 or a well-formed listing, and an unknown contentType lists nothing |
| TranscriptView.ReplaceAll | pages/watch.js:183 | the global replacement leaves no replaced character unless the replacement holds it, and adds only characters of the text or the replacement |
| TranscriptView.ReplaceAllAbsent | pages/watch.js:183 | text without the character is left as it is |
| TranscriptView.ReplaceAllSingle | pages/watch.js:183 | one character becomes the replacement when it is the searched one and stays as it is otherwise |
| TranscriptView.ReplaceAllAppend | pages/watch.js:183 | the replacement of a concatenation is the concatenation of the replacements, so with ReplaceAllSingle it acts character by character |
| TranscriptView.ReplaceAllAt | pages/watch.js:183 | each occurrence of the character is replaced in place, with the text on both sides replaced on its own |
| TranscriptView.EscapeIsCharwise | pages/watch.js:183 | the two global replacements escape each character independently |
| TranscriptView.EscapeMeaning | pages/watch.js:183 | escaped text holds no `<` or `>`, and text without them is unchanged |
| TranscriptView.EscapeNotInjective | pages/watch.js:183 | "<" and "&lt;" escape alike, so the escape has no inverse |
| TranscriptView.SplitRoundTrip | pages/watch.js:178 | putting the removed separators back between the pieces gives the text |
| TranscriptView.SplitSeparators | pages/watch.js:178 | every removed separator is a non-empty run of whitespace |
| TranscriptView.SplitPieces | pages/watch.js:178 | every piece but the last ends in '.', '!' or '?', and no piece holds a sentence mark followed by whitespace |
| TranscriptView.SplitSeparatorsMaximal | pages/watch.js:178 | the greedy `\s+` takes the whole run of whitespace: no piece after the first starts with whitespace |
| TranscriptView.SplitSentencesMeaning | pages/watch.js:178 | for the whole text: the round trip, the whitespace separators, the sentence-mark endings, and maximal separators (no piece after the first starts with whitespace) |
| TranscriptView.SentencesMeaning | pages/watch.js:179-180 | kept sentences are non-empty and neither start nor end with whitespace; every non-blank piece is kept trimmed; the sentences of any split of the pieces are the sentences of its two parts, in order |
| TranscriptView.SentencesOfOne | pages/watch.js:179-180 | one piece gives its trimmed self when it is not blank and nothing otherwise |
| TranscriptView.SentencesAppend | pages/watch.js:179-180 | filtering and trimming act piece by piece: the sentences of two joined lists are the two lists' sentences in order, each piece kept once |
| TranscriptView.SentencesSplit | pages/watch.js:179-180 | cutting the list of pieces anywhere cuts the sentences at the same place |
| TranscriptView.SentencesAtMost | pages/watch.js:179-180 | each piece yields at most one sentence |
| TranscriptView.ParagraphsRoundTrip | pages/watch.js:182-184 | the `<p>` blocks read back as the escaped sentences, one block each, in order |
| TranscriptView.HeaderPassLines | pages/watch.js:140-142 | a header pass rewrites each line on its own and keeps the line terminators |
| TranscriptView.ThirdLevelHeading | pages/watch.js:140-142 | a "### " line becomes an h3 heading that the "## " and "# " rules leave alone |
| TranscriptView.SecondLevelHeading | pages/watch.js:140-142 | a "## " line becomes an h2 heading |
| TranscriptView.FirstLevelHeading | pages/watch.js:140-142 | a "# " line becomes an h1 heading |
| TranscriptView.Headers | pages/watch.js:140-142 | no contract of its own: the three header passes in order, specified by HeaderPassLines and the three heading lemmas |
| TranscriptView.CloseFrom | pages/watch.js:145 | the lazy capture closes at the first occurrence of "**" from the given index, with no line terminator and no earlier "**" before it |
| TranscriptView.CloseFromNone | pages/watch.js:145 | when no closer is found, every later "**" lies past a line terminator |
| TranscriptView.BoldFirstPair | pages/watch.js:145 | `**x**` with a star-free one-line x becomes `<strong>x</strong>`, closing at the first `**` even when more follow |
| TranscriptView.BoldWithoutStars | pages/watch.js:145 | text without '*' is unchanged by the bold pass |
| TranscriptView.Bold | pages/watch.js:145 | no contract of its own: specified by BoldFirstPair, BoldWithoutStars, BoldUnclosed and BoldAcrossLines |
| TranscriptView.BoldStarFreePrefix | pages/watch.js:145 | a star-free start passes through the bold pass unchanged |
| TranscriptView.BoldUnclosed | pages/watch.js:145 | an opening "**" never closed is left as it is |
| TranscriptView.BoldAcrossLines | pages/watch.js:145 | a "**" pair with a line terminator between is left as it is: the lazy capture does not cross lines |
| TranscriptView.MarkdownInline | pages/watch.js:134-145 | empty input gives '' (watch.js:135); otherwise the header passes, then Bold |
| TranscriptView.FormatEmpty | pages/watch.js:170 | an absent or empty transcript renders as '' |
| TranscriptView.MarkdownBranchIff | pages/watch.js:173-174 | the markdown branch is taken iff the text holds "##" |
| TranscriptView.PlainBranch | pages/watch.js:176-185 | the plain branch renders exactly the kept sentences, escaped, one `<p>` block each, in order |
| TranscriptView.FormatTranscript | pages/watch.js:169-186 | no contract of its own: specified by FormatEmpty, MarkdownBranchIff and PlainBranch |

## Left out

- I/O is not modelled: HTTP plumbing, logging, `dotenv`, the `googleapis` client, `fetch` and the
  yt-dlp `exec` with its cookie temp file. The API calls and the two probes are parameters.
- Concurrency: `Promise.all` over the per-video promises is a sequential map. The outcome is the
  same except for the order of side effects.
- `getTranscript`, `generateSummary`, pages/api/transcript.js, pages/api/summary.js and
  pages/api/video-info.js are not part of this model: they are shell-outs and thin wrappers
  around external services.
- pages/index.js is not part of this model: it is DOM code whose formatting duplicates
  pages/watch.js.
- React state and effects in pages/watch.js are not part of this model.
- TranscriptView.FormatTranscript: in the markdown branch, the model stops after the header and
  bold passes. The list and paragraph passes of `parseMarkdown` (watch.js:147-165) are not
  modelled: their lookbehind and `s`-flag regexes are engine-specific.
- TranscriptView.HeaderPassLines: the header passes are characterised line by line. No lemma
  covers the composition of all three passes on a multi-line text.
- HandleLookup.SelectIndex: `toLowerCase` is modelled for ASCII letters only. Handles and titles
  with non-ASCII capitals compare differently in JavaScript.
- Pipeline.FetchSize: `maxResults` is a natural number. A negative `maxResults` is not modelled:
  there `slice(0, n)` drops the last |n| items, so the "at most maxResults items" bound does not
  hold for it. `parseInt` of a non-numeric body value (giving NaN) is not modelled either.
- Listing.SortNewestFirst: `publishedAt` is an integer timestamp. `new Date` parsing of the ISO
  text is not modelled.
- Duration.ParseDuration: `parseInt` precision loss above 2^53 and the floating-point
  multiplication are not modelled; the arithmetic is exact on naturals.
- Thumbnail and probe dimensions of 0 stand for missing (JavaScript-falsy) values. A non-numeric
  dimension is not modelled.
- JavaScript object-key quirks of `videoDetailsMap` are not modelled: an id such as "__proto__"
  behaves like any other key.
- ServerRoute.FinalIsShort: redirect handling is not modelled. node-fetch follows redirects, and
  the probe is the status of the final response.
- HTTP methods other than POST on the server.js route never reach it. Express's own 404 for them
  is not modelled.
